/** Time frames in a solver: one literal per name and cycle. What the formula says is
    tracked exactly: the sequences of valuations its models give, no more, no fewer. */
module Frames {
  import opened Sat
  import opened Circuit
  import opened Cdcl
  import opened Encoding
  import opened Search
  import opened Transition

  datatype Frame = Frame(lits: map<Name, int>, memo: map<Sig, int>)

  ghost predicate FramesOk(f: seq<seq<int>>, n: nat, frames: seq<Frame>) {
    forall t | 0 <= t < |frames| :: EnvOk(n, frames[t].lits) && MemoOk(f, n, frames[t].lits, frames[t].memo)
  }

  function View(m: Model, frames: seq<Frame>): (tr: seq<Env>)
    ensures |tr| == |frames|
  {
    seq(|frames|, t requires 0 <= t < |frames| => EnvOf(m, frames[t].lits))
  }

  /** The models of the formula, seen through the frames, are exactly `traces`. */
  ghost predicate Shows(f: seq<seq<int>>, frames: seq<Frame>, traces: iset<seq<Env>>) {
    && (forall m: Model | HoldsAll(m, f) :: View(m, frames) in traces)
    && (forall tr | tr in traces :: Realised(f, frames, tr))
  }

  ghost predicate Realised(f: seq<seq<int>>, frames: seq<Frame>, tr: seq<Env>) {
    exists m: Model :: HoldsAll(m, f) && View(m, frames) == tr
  }

  ghost predicate Ok(s: Solver, frames: seq<Frame>, traces: iset<seq<Env>>)
    reads s
  {
    && s.Valid() && TrueOk(s.formula, s.nVars, s.trueLit)
    && FramesOk(s.formula, s.nVars, frames) && Shows(s.formula, frames, traces)
  }

  lemma AgreeView(f: seq<seq<int>>, n: nat, m: Model, m': Model, frames: seq<Frame>)
    requires Agree(n, m, m') && FramesOk(f, n, frames)
    ensures View(m, frames) == View(m', frames)
  {
    forall t | 0 <= t < |frames| ensures EnvOf(m, frames[t].lits) == EnvOf(m', frames[t].lits) {
      AgreeEnv(n, m, m', frames[t].lits);
    }
  }

  lemma ShowsLater(f: seq<seq<int>>, n: nat, f': seq<seq<int>>, n': nat, frames: seq<Frame>, traces: iset<seq<Env>>)
    requires Grows(f, n, f', n') && FramesOk(f, n, frames) && Shows(f, frames, traces)
    ensures FramesOk(f', n', frames) && Shows(f', frames, traces)
  {
    forall t | 0 <= t < |frames|
      ensures EnvOk(n', frames[t].lits) && MemoOk(f', n', frames[t].lits, frames[t].memo)
    {
      GrowsLater(f, n, f', n', frames[t].lits, frames[t].memo);
    }
    forall m: Model | HoldsAll(m, f') ensures View(m, frames) in traces { PrefixHolds(m, f, f'); }
    forall tr | tr in traces ensures Realised(f', frames, tr) {
      assert Realised(f, frames, tr);
      var m :| HoldsAll(m, f) && View(m, frames) == tr;
      assert Extendable(m, n, f');
      var m' :| HoldsAll(m', f') && Agree(n, m, m');
      AgreeView(f, n, m, m', frames);
    }
  }

  /** A clause whose truth in a model is membership of the model's trace in `traces'`. */
  ghost predicate Says(f: seq<seq<int>>, frames: seq<Frame>, c: seq<int>, traces': iset<seq<Env>>) {
    forall m: Model | HoldsAll(m, f) :: HoldsClause(m, c) <==> View(m, frames) in traces'
  }

  lemma ShowsAssert(f: seq<seq<int>>, n: nat, frames: seq<Frame>, traces: iset<seq<Env>>, c: seq<int>,
      traces': iset<seq<Env>>)
    requires FramesOk(f, n, frames) && Shows(f, frames, traces) && Says(f, frames, c, traces') && traces' <= traces
    ensures FramesOk(f + [c], n, frames) && Shows(f + [c], frames, traces')
  {
    forall t | 0 <= t < |frames| ensures MemoOk(f + [c], n, frames[t].lits, frames[t].memo) {
      MemoLater(f, n, f + [c], n, frames[t].lits, frames[t].memo);
    }
    forall m: Model | HoldsAll(m, f + [c]) ensures View(m, frames) in traces' { HoldsAllAppend(m, f, c); }
    forall tr | tr in traces' ensures Realised(f + [c], frames, tr) {
      assert Realised(f, frames, tr);
      var m :| HoldsAll(m, f) && View(m, frames) == tr;
      HoldsAllAppend(m, f, c);
    }
  }

  /** Add a clause: the traces it keeps are known. */
  method Constrain(s: Solver, c: seq<int>, ghost frames: seq<Frame>, ghost traces: iset<seq<Env>>,
      ghost traces': iset<seq<Env>>)
    requires Ok(s, frames, traces) && ClauseOk(s.nVars, c) && Says(s.formula, frames, c, traces') && traces' <= traces
    modifies s
    ensures Ok(s, frames, traces') && s.formula == old(s.formula) + [c] && s.nVars == old(s.nVars)
  {
    hide Solver.Valid, TrueOk, FramesOk, Shows, Says;
    ghost var f, n := s.formula, s.nVars;
    ShowsAssert(f, n, frames, traces, c, traces');
    var _ := s.AddClause(c);
    TrueLater(f, n, s.formula, s.nVars, s.trueLit);
  }

  /** The literal has the signal's value in cycle `t`. */
  ghost predicate LitFor(f: seq<seq<int>>, n: nat, frames: seq<Frame>, t: nat, sig: Sig, lit: int) {
    t < |frames| && LitOk(n, lit) && Encodes(f, frames[t].lits, sig, lit)
  }

  lemma LitForLater(f: seq<seq<int>>, n: nat, f': seq<seq<int>>, n': nat, frames: seq<Frame>, t: nat, sig: Sig,
      lit: int)
    requires LitFor(f, n, frames, t, sig, lit) && f <= f' && n <= n'
    ensures LitFor(f', n', frames, t, sig, lit)
  {
    EncodesLater(f, f', frames[t].lits, sig, lit);
  }

  lemma SetMemo(f: seq<seq<int>>, n: nat, frames: seq<Frame>, traces: iset<seq<Env>>, t: nat, memo: map<Sig, int>)
    requires t < |frames| && FramesOk(f, n, frames) && Shows(f, frames, traces) && MemoOk(f, n, frames[t].lits, memo)
    ensures FramesOk(f, n, frames[t := frames[t].(memo := memo)])
        && Shows(f, frames[t := frames[t].(memo := memo)], traces)
  {
    var frames' := frames[t := frames[t].(memo := memo)];
    forall m: Model ensures View(m, frames') == View(m, frames) {}
    forall tr | tr in traces ensures Realised(f, frames', tr) {
      assert Realised(f, frames, tr);
      var m :| HoldsAll(m, f) && View(m, frames) == tr;
      assert View(m, frames') == tr;
    }
  }

  /** Encode a signal in cycle `t`. */
  method Encode(s: Solver, frames: seq<Frame>, t: nat, sig: Sig, ghost traces: iset<seq<Env>>)
      returns (lit: int, frames': seq<Frame>)
    requires Ok(s, frames, traces) && t < |frames| && Support(sig) <= frames[t].lits.Keys
    modifies s
    ensures Ok(s, frames', traces) && LitFor(s.formula, s.nVars, frames', t, sig, lit)
    ensures |frames'| == |frames| && forall u | 0 <= u < |frames| :: frames'[u].lits == frames[u].lits
    ensures Grows(old(s.formula), old(s.nVars), s.formula, s.nVars)
  {
    hide Solver.Valid, TrueOk, FramesOk, Shows, MemoOk, Encodes, EnvOk, Grows;
    ghost var f, n := s.formula, s.nVars;
    FramesAt(f, n, frames, t);
    var memo;
    lit, memo := Tseitin(s, sig, frames[t].lits, frames[t].memo);
    ShowsLater(f, n, s.formula, s.nVars, frames, traces);
    SetMemo(s.formula, s.nVars, frames, traces, t, memo);
    frames' := frames[t := frames[t].(memo := memo)];
  }

  lemma FramesAt(f: seq<seq<int>>, n: nat, frames: seq<Frame>, t: nat)
    requires FramesOk(f, n, frames) && t < |frames|
    ensures EnvOk(n, frames[t].lits) && MemoOk(f, n, frames[t].lits, frames[t].memo)
  {
  }

  // ---- fresh variables ------------------------------------------------------------

  /** The names `ks` have variables of their own, all above `n`. */
  ghost predicate FreshOn(n: nat, n': nat, lits: map<Name, int>, ks: set<Name>) {
    && ks <= lits.Keys
    && (forall x | x in ks :: n < lits[x] <= n')
    && (forall x, y | x in ks && y in ks && lits[x] == lits[y] :: x == y)
  }

  ghost function NameSet(names: seq<Name>): set<Name> {
    set x | x in names
  }

  method FreshVars(s: Solver, names: seq<Name>, lits0: map<Name, int>) returns (lits: map<Name, int>)
    requires s.Valid() && Distinct(names) && NameSet(names) !! lits0.Keys
    modifies s
    ensures s.Valid() && s.formula == old(s.formula) && s.nVars >= old(s.nVars) && s.trueLit == old(s.trueLit)
    ensures lits.Keys == lits0.Keys + NameSet(names) && forall x | x in lits0 :: lits[x] == lits0[x]
    ensures FreshOn(old(s.nVars), s.nVars, lits, NameSet(names))
  {
    hide Solver.Valid;
    lits := lits0;
    var i := 0;
    while i < |names|
      invariant i <= |names| && s.Valid()
      invariant s.formula == old(s.formula) && s.nVars >= old(s.nVars) && s.trueLit == old(s.trueLit)
      invariant lits.Keys == lits0.Keys + NameSet(names[..i]) && forall x | x in lits0 :: lits[x] == lits0[x]
      invariant FreshOn(old(s.nVars), s.nVars, lits, NameSet(names[..i]))
    {
      assert names[..i + 1] == names[..i] + [names[i]];
      assert NameSet(names[..i + 1]) == NameSet(names[..i]) + {names[i]};
      assert names[i] in NameSet(names) && names[i] !in names[..i];
      var v := s.NewVar();
      lits := lits[names[i] := v];
      i := i + 1;
    }
    assert names[..i] == names;
  }

  /** Fresh variables can take any values. */
  lemma Choose(n: nat, n': nat, lits: map<Name, int>, ks: set<Name>, m: Model, e: Env) returns (m': Model)
    requires FreshOn(n, n', lits, ks) && e <= ks
    ensures Agree(n, m, m') && forall x | x in ks :: HoldsLit(m', lits[x]) <==> x in e
  {
    m' := (set v | v in m && v <= n) + (set x | x in e :: lits[x]);
    forall x | x in ks ensures HoldsLit(m', lits[x]) <==> x in e {
      if lits[x] in m' {
        assert lits[x] > n;
        var y :| y in e && lits[y] == lits[x];
        assert y in ks;
      }
    }
  }

  lemma FramesWider(f: seq<seq<int>>, n: nat, n': nat, frames: seq<Frame>)
    requires FramesOk(f, n, frames) && n <= n'
    ensures FramesOk(f, n', frames)
  {
    forall t | 0 <= t < |frames|
      ensures EnvOk(n', frames[t].lits) && MemoOk(f, n', frames[t].lits, frames[t].memo)
    {
      GrowsWider(f, n, n');
      GrowsLater(f, n, f, n', frames[t].lits, frames[t].memo);
    }
  }

  lemma GrowsWider(f: seq<seq<int>>, n: nat, n': nat)
    requires n <= n'
    ensures Grows(f, n, f, n')
  {
    GrowsRefl(f, n);
  }

  /** One more cycle, with nothing said about it. */
  ghost function Extended(traces: iset<seq<Env>>, len: nat, ns: set<Name>): iset<seq<Env>> {
    iset tr: seq<Env> | |tr| == len + 1 && tr[..len] in traces && tr[len] <= ns
  }

  lemma FramesFresh(f: seq<seq<int>>, n: nat, n': nat, frames: seq<Frame>, lits: map<Name, int>)
    requires FramesOk(f, n, frames) && FreshOn(n, n', lits, lits.Keys) && n <= n'
    ensures FramesOk(f, n', frames + [Frame(lits, map[])])
  {
    FramesWider(f, n, n', frames);
  }

  lemma ShowsFresh(f: seq<seq<int>>, n: nat, n': nat, frames: seq<Frame>, traces: iset<seq<Env>>, lits: map<Name, int>)
    requires FramesOk(f, n, frames) && Shows(f, frames, traces) && FreshOn(n, n', lits, lits.Keys) && n <= n'
    requires forall i | 0 <= i < |f| :: ClauseOk(n, f[i])
    ensures FramesOk(f, n', frames + [Frame(lits, map[])])
    ensures Shows(f, frames + [Frame(lits, map[])], Extended(traces, |frames|, lits.Keys))
  {
    hide FramesOk, FreshOn, HoldsAll, ClauseOk, View, Extended, Realised;
    FramesFresh(f, n, n', frames, lits);
    var frames' := frames + [Frame(lits, map[])];
    forall m: Model | HoldsAll(m, f) ensures View(m, frames') in Extended(traces, |frames|, lits.Keys) {
      ViewAppend(m, frames, lits);
      ExtendedHas(traces, |frames|, lits.Keys, View(m, frames), EnvOf(m, lits));
    }
    forall tr | tr in Extended(traces, |frames|, lits.Keys) ensures Realised(f, frames', tr) {
      ExtendedIs(traces, |frames|, lits.Keys, tr);
      RealiseFresh(f, n, n', frames, lits, tr);
    }
  }

  lemma ExtendedHas(traces: iset<seq<Env>>, len: nat, ns: set<Name>, tr: seq<Env>, e: Env)
    requires tr in traces && |tr| == len && e <= ns
    ensures tr + [e] in Extended(traces, len, ns)
  {
    assert (tr + [e])[..len] == tr;
  }

  lemma ExtendedIs(traces: iset<seq<Env>>, len: nat, ns: set<Name>, tr: seq<Env>)
    requires tr in Extended(traces, len, ns)
    ensures |tr| == len + 1 && tr[..len] in traces && tr[len] <= ns
  {
  }

  lemma ViewAppend(m: Model, frames: seq<Frame>, lits: map<Name, int>)
    ensures View(m, frames + [Frame(lits, map[])]) == View(m, frames) + [EnvOf(m, lits)]
    ensures EnvOf(m, lits) <= lits.Keys
  {
  }

  lemma RealiseFresh(f: seq<seq<int>>, n: nat, n': nat, frames: seq<Frame>, lits: map<Name, int>, tr: seq<Env>)
    requires FramesOk(f, n, frames) && FreshOn(n, n', lits, lits.Keys)
    requires forall i | 0 <= i < |f| :: ClauseOk(n, f[i])
    requires |tr| == |frames| + 1 && Realised(f, frames, tr[..|frames|]) && tr[|frames|] <= lits.Keys
    ensures Realised(f, frames + [Frame(lits, map[])], tr)
  {
    hide FramesOk, FreshOn, HoldsAll, ClauseOk, View;
    var m :| HoldsAll(m, f) && View(m, frames) == tr[..|frames|];
    var m' := Choose(n, n', lits, lits.Keys, m, tr[|frames|]);
    AgreeAll(n, m, m', f);
    AgreeView(f, n, m, m', frames);
    assert EnvOf(m', lits) == tr[|frames|];
    ViewAppend(m', frames, lits);
    assert tr == tr[..|frames|] + [tr[|frames|]];
  }

  ghost predicate Positive(fr: Frame) {
    forall x | x in fr.lits :: fr.lits[x] > 0
  }

  /** fresh_frame: one variable per state bit and input. */
  method FreshFrame(s: Solver, ts: TS, ghost frames: seq<Frame>, ghost traces: iset<seq<Env>>) returns (fr: Frame)
    requires Ok(s, frames, traces) && Wf(ts)
    modifies s
    ensures fr.lits.Keys == Names(ts) && fr.memo == map[] && Positive(fr)
    ensures Ok(s, frames + [fr], Extended(traces, |frames|, Names(ts)))
    ensures Grows(old(s.formula), old(s.nVars), s.formula, s.nVars)
  {
    hide Solver.Valid, TrueOk, FramesOk, Shows, MemoOk, EnvOk, Grows;
    ghost var f, n := s.formula, s.nVars;
    s.ClausesOk();
    var lits := FreshVars(s, ts.state, map[]);
    ghost var n1 := s.nVars;
    lits := FreshVars(s, ts.inputs, lits);
    fr := Frame(lits, map[]);
    ShowsFresh(f, n, s.nVars, frames, traces, lits);
    GrowsWider(f, n, s.nVars);
    TrueLater(f, n, s.formula, s.nVars, s.trueLit);
  }

  // ---- constraints on the cycles ---------------------------------------------------

  ghost predicate InitTo(ts: TS, e: Env, p: nat)
    requires p <= |ts.state| && States(ts) <= ts.init.Keys
  {
    forall q | 0 <= q < p :: ts.state[q] in e <==> ts.init[ts.state[q]]
  }

  /** The traces whose cycle `t` has the first `p` state bits at their reset values. */
  ghost function FromInit(ts: TS, traces: iset<seq<Env>>, t: nat, p: nat): iset<seq<Env>>
    requires p <= |ts.state| && States(ts) <= ts.init.Keys
  {
    iset tr | tr in traces && t < |tr| && InitTo(ts, tr[t], p)
  }

  /** assert_init. */
  method AssertInit(s: Solver, ts: TS, frames: seq<Frame>, t: nat, ghost traces: iset<seq<Env>>)
    requires Ok(s, frames, traces) && Wf(ts) && t < |frames| && frames[t].lits.Keys == Names(ts)
    modifies s
    ensures Ok(s, frames, FromInit(ts, traces, t, |ts.state|))
    ensures old(s.formula) <= s.formula && s.nVars == old(s.nVars)
  {
    hide Solver.Valid, TrueOk, FramesOk, MemoOk, EnvOk, Ok, Shows;
    var p := 0;
    OkLengths(s, frames, traces);
    assert FromInit(ts, traces, t, 0) == traces;
    while p < |ts.state|
      invariant p <= |ts.state| && Ok(s, frames, FromInit(ts, traces, t, p))
      invariant old(s.formula) <= s.formula && s.nVars == old(s.nVars)
    {
      var x := ts.state[p];
      assert x in ts.state && x in States(ts);
      var lit := frames[t].lits[x];
      var c := [if ts.init[x] then lit else -lit];
      OkParts(s, frames, FromInit(ts, traces, t, p));
      InitSays(s.formula, s.nVars, ts, frames, t, traces, p, c);
      Constrain(s, c, frames, FromInit(ts, traces, t, p), FromInit(ts, traces, t, p + 1));
      p := p + 1;
    }
  }

  lemma OkLengths(s: Solver, frames: seq<Frame>, traces: iset<seq<Env>>)
    requires Ok(s, frames, traces)
    ensures forall tr | tr in traces :: |tr| == |frames|
  {
    forall tr | tr in traces ensures |tr| == |frames| {
      assert Realised(s.formula, frames, tr);
    }
  }

  lemma OkParts(s: Solver, frames: seq<Frame>, traces: iset<seq<Env>>)
    requires Ok(s, frames, traces)
    ensures FramesOk(s.formula, s.nVars, frames) && Shows(s.formula, frames, traces)
  {
  }

  lemma InitSays(f: seq<seq<int>>, n: nat, ts: TS, frames: seq<Frame>, t: nat, traces: iset<seq<Env>>, p: nat,
      c: seq<int>)
    requires Wf(ts) && t < |frames| && frames[t].lits.Keys == Names(ts) && p < |ts.state| && ts.state[p] in Names(ts)
    requires FramesOk(f, n, frames) && Shows(f, frames, FromInit(ts, traces, t, p))
    requires var lit := frames[t].lits[ts.state[p]]; c == [if ts.init[ts.state[p]] then lit else -lit]
    ensures ClauseOk(n, c) && Says(f, frames, c, FromInit(ts, traces, t, p + 1))
    ensures FromInit(ts, traces, t, p + 1) <= FromInit(ts, traces, t, p)
  {
    hide FramesOk, MemoOk, HoldsAll;
    var x := ts.state[p];
    FramesAt(f, n, frames, t);
    assert LitOk(n, frames[t].lits[x]);
    forall m: Model | HoldsAll(m, f)
      ensures HoldsClause(m, c) <==> View(m, frames) in FromInit(ts, traces, t, p + 1)
    {
      assert View(m, frames) in FromInit(ts, traces, t, p);
      assert c[0] in c;
      assert x in View(m, frames)[t] <==> HoldsLit(m, frames[t].lits[x]);
    }
  }

  /** The first `p` state bits' next-state functions have their literals in `out`. */
  ghost predicate NextLits(f: seq<seq<int>>, n: nat, ts: TS, frames: seq<Frame>, t: nat, out: map<Name, int>, p: nat)
    requires p <= |ts.state| && States(ts) <= ts.next.Keys
  {
    forall q | 0 <= q < p ::
      ts.state[q] in out && LitFor(f, n, frames, t, ts.next[ts.state[q]], out[ts.state[q]])
  }

  lemma NextLitsLater(f: seq<seq<int>>, n: nat, f': seq<seq<int>>, n': nat, ts: TS, frames: seq<Frame>,
      frames': seq<Frame>,
                      t: nat, out: map<Name, int>, p: nat)
    requires p <= |ts.state| && States(ts) <= ts.next.Keys && NextLits(f, n, ts, frames, t, out, p)
    requires f <= f' && n <= n' && |frames| == |frames'| && t < |frames| && frames'[t].lits == frames[t].lits
    ensures NextLits(f', n', ts, frames', t, out, p)
  {
    forall q | 0 <= q < p ensures LitFor(f', n', frames', t, ts.next[ts.state[q]], out[ts.state[q]]) {
      LitForLater(f, n, f', n', frames, t, ts.next[ts.state[q]], out[ts.state[q]]);
    }
  }

  ghost predicate SameLits(frames: seq<Frame>, frames': seq<Frame>) {
    |frames| == |frames'| && forall u | 0 <= u < |frames| :: frames'[u].lits == frames[u].lits
  }

  /** The first half of next_env: the next-state functions, encoded in cycle `t`. */
  method NextStates(s: Solver, ts: TS, frames: seq<Frame>, t: nat, ghost traces: iset<seq<Env>>)
    returns (out: map<Name, int>, frames': seq<Frame>)
    requires Ok(s, frames, traces) && Wf(ts) && t < |frames| && frames[t].lits.Keys == Names(ts)
    modifies s
    ensures Ok(s, frames', traces) && SameLits(frames, frames')
    ensures out.Keys == States(ts) && NextLits(s.formula, s.nVars, ts, frames', t, out, |ts.state|)
    ensures Grows(old(s.formula), old(s.nVars), s.formula, s.nVars)
  {
    hide Ok, LitFor, Grows, NextLits;
    assert NextLits(s.formula, s.nVars, ts, frames, t, map[], 0) by { NoNextLits(s.formula, s.nVars, ts, frames, t); }
    GrowsRefl(s.formula, s.nVars);
    out, frames' := map[], frames;
    var p := 0;
    while p < |ts.state|
      invariant p <= |ts.state| && Ok(s, frames', traces) && SameLits(frames, frames')
      invariant out.Keys == NameSet(ts.state[..p]) && NextLits(s.formula, s.nVars, ts, frames', t, out, p)
      invariant Grows(old(s.formula), old(s.nVars), s.formula, s.nVars)
    {
      ghost var f, n, fr0 := s.formula, s.nVars, frames';
      var x := ts.state[p];
      assert x in ts.state && x in States(ts) && ts.state[..p + 1] == ts.state[..p] + [x];
      var lit;
      lit, frames' := Encode(s, frames', t, ts.next[x], traces);
      GrowsTrans(old(s.formula), old(s.nVars), f, n, s.formula, s.nVars);
      GrowsPrefix(f, n, s.formula, s.nVars);
      NextLitsLater(f, n, s.formula, s.nVars, ts, fr0, frames', t, out, p);
      NextLitsAdd(s.formula, s.nVars, ts, frames', t, out, p, lit);
      out := out[x := lit];
      p := p + 1;
    }
    assert ts.state[..p] == ts.state;
  }

  lemma GrowsPrefix(f: seq<seq<int>>, n: nat, f': seq<seq<int>>, n': nat)
    requires Grows(f, n, f', n')
    ensures f <= f' && n <= n'
  {
  }

  lemma NoNextLits(f: seq<seq<int>>, n: nat, ts: TS, frames: seq<Frame>, t: nat)
    requires States(ts) <= ts.next.Keys
    ensures NextLits(f, n, ts, frames, t, map[], 0)
  {
  }

  lemma NextLitsAdd(f: seq<seq<int>>, n: nat, ts: TS, frames: seq<Frame>, t: nat, out: map<Name, int>, p: nat, lit: int)
    requires p < |ts.state| && States(ts) <= ts.next.Keys && NextLits(f, n, ts, frames, t, out, p)
    requires ts.state[p] in States(ts) && LitFor(f, n, frames, t, ts.next[ts.state[p]], lit) && Distinct(ts.state)
    ensures NextLits(f, n, ts, frames, t, out[ts.state[p] := lit], p + 1)
  {
    hide LitFor;
    var out' := out[ts.state[p] := lit];
    forall q | 0 <= q < p + 1
      ensures ts.state[q] in out' && LitFor(f, n, frames, t, ts.next[ts.state[q]], out'[ts.state[q]])
    {
    }
  }

  /** next_env: every state bit to the literal of its next-state function in cycle
      `t`; every input to a fresh variable. `n1` counts the variables before those. */
  method NextEnv(s: Solver, ts: TS, frames: seq<Frame>, t: nat, ghost traces: iset<seq<Env>>)
    returns (out: map<Name, int>, frames': seq<Frame>, ghost n1: nat)
    requires Ok(s, frames, traces) && Wf(ts) && t < |frames| && frames[t].lits.Keys == Names(ts)
    modifies s
    ensures Ok(s, frames', traces) && SameLits(frames, frames')
    ensures out.Keys == Names(ts) && NextLits(s.formula, n1, ts, frames', t, out, |ts.state|)
    ensures n1 <= s.nVars && FramesOk(s.formula, n1, frames')
        && forall i | 0 <= i < |s.formula| :: ClauseOk(n1, s.formula[i])
    ensures FreshOn(n1, s.nVars, out, Inputs(ts))
    ensures Grows(old(s.formula), old(s.nVars), s.formula, s.nVars)
  {
    hide LitFor, Grows, NextLits, Solver.Valid, FramesOk, Shows, TrueOk;
    out, frames' := NextStates(s, ts, frames, t, traces);
    n1 := s.nVars;
    s.ClausesOk();
    ghost var outS := out;
    out := FreshVars(s, ts.inputs, out);
    NextLitsSame(s.formula, n1, ts, frames', t, outS, out);
    FramesWider(s.formula, n1, s.nVars, frames');
    TrueLater(s.formula, n1, s.formula, s.nVars, s.trueLit);
    GrowsWider(s.formula, n1, s.nVars);
    GrowsTrans(old(s.formula), old(s.nVars), s.formula, n1, s.formula, s.nVars);
  }

  lemma NextLitsSame(f: seq<seq<int>>, n: nat, ts: TS, frames: seq<Frame>, t: nat, out: map<Name, int>,
      out': map<Name, int>)
    requires States(ts) <= ts.next.Keys && NextLits(f, n, ts, frames, t, out, |ts.state|)
    requires forall x | x in out :: x in out' && out'[x] == out[x]
    ensures NextLits(f, n, ts, frames, t, out', |ts.state|)
  {
  }

  /** The first `p` state bits of `e'` are what the cycle `e` makes them. */
  ghost predicate NextTo(ts: TS, e: Env, e': Env, p: nat)
    requires p <= |ts.state| && States(ts) <= ts.next.Keys
  {
    forall q | 0 <= q < p :: ts.state[q] in e' <==> Eval(ts.next[ts.state[q]], e)
  }

  ghost function Tied(ts: TS, traces: iset<seq<Env>>, t: nat, u: nat, p: nat): iset<seq<Env>>
    requires p <= |ts.state| && States(ts) <= ts.next.Keys
  {
    iset tr | tr in traces && t < |tr| && u < |tr| && NextTo(ts, tr[t], tr[u], p)
  }

  lemma NoneTied(ts: TS, traces: iset<seq<Env>>, t: nat, u: nat, len: nat)
    requires States(ts) <= ts.next.Keys && t < len && u < len && forall tr | tr in traces :: |tr| == len
    ensures Tied(ts, traces, t, u, 0) == traces
  {
  }

  /** tie: cycle `u`'s state bits equal the next-state functions of cycle `t`. */
  method Tie(s: Solver, ts: TS, frames: seq<Frame>, t: nat, u: nat, ghost traces: iset<seq<Env>>)
    returns (frames': seq<Frame>)
    requires Ok(s, frames, traces) && Wf(ts) && t < |frames| && frames[t].lits.Keys == Names(ts)
    requires u < |frames| && frames[u].lits.Keys == Names(ts)
    modifies s
    ensures Ok(s, frames', Tied(ts, traces, t, u, |ts.state|)) && SameLits(frames, frames')
  {
    hide TrueOk, FramesOk, MemoOk, EnvOk, Shows, LitFor, NextLits, Ok, Says, SaysIn, ClauseOk, Tied;
    var out;
    ghost var n1;
    out, frames', n1 := NextEnv(s, ts, frames, t, traces);
    NextLitsLater(s.formula, n1, s.formula, s.nVars, ts, frames', frames', t, out, |ts.state|);
    var p := 0;
    OkLengths(s, frames', traces);
    NoneTied(ts, traces, t, u, |frames|);
    while p < |ts.state|
      invariant p <= |ts.state| && Ok(s, frames', Tied(ts, traces, t, u, p))
      invariant NextLits(s.formula, s.nVars, ts, frames', t, out, |ts.state|)
    {
      ghost var f, n := s.formula, s.nVars;
      NextLitAt(f, n, ts, frames', t, out, p);
      TieBit(s, ts, frames', t, u, traces, p, out[ts.state[p]], frames'[u].lits[ts.state[p]]);
      NextLitsLater(f, n, s.formula, s.nVars, ts, frames', frames', t, out, |ts.state|);
      p := p + 1;
    }
  }

  lemma NextLitAt(f: seq<seq<int>>, n: nat, ts: TS, frames: seq<Frame>, t: nat, out: map<Name, int>, p: nat)
    requires States(ts) <= ts.next.Keys && NextLits(f, n, ts, frames, t, out, |ts.state|) && p < |ts.state|
    ensures ts.state[p] in States(ts) && ts.state[p] in out
    ensures LitFor(f, n, frames, t, ts.next[ts.state[p]], out[ts.state[p]])
  {
  }

  /** Cycle `u` has the bit if cycle `t` makes it 1. */
  ghost function Carried(ts: TS, traces: iset<seq<Env>>, t: nat, u: nat, p: nat): iset<seq<Env>>
    requires p < |ts.state| && States(ts) <= ts.next.Keys
  {
    iset tr | tr in Tied(ts, traces, t, u, p) && Carries(ts, tr, t, u, p)
  }

  predicate Carries(ts: TS, tr: seq<Env>, t: nat, u: nat, p: nat)
    requires p < |ts.state| && States(ts) <= ts.next.Keys
  {
    t < |tr| && u < |tr| && ts.state[p] in States(ts) && (Eval(ts.next[ts.state[p]], tr[t]) ==> ts.state[p] in tr[u])
  }

  lemma TiedNext(ts: TS, traces: iset<seq<Env>>, t: nat, u: nat, p: nat, tr: seq<Env>)
    requires p < |ts.state| && ts.state[p] in States(ts) && States(ts) <= ts.next.Keys
        && tr in Tied(ts, traces, t, u, p)
    ensures tr in Tied(ts, traces, t, u, p + 1) <==> (ts.state[p] in tr[u] <==> Eval(ts.next[ts.state[p]], tr[t]))
  {
  }

  /** What the two clauses of a tied bit say, one after the other. */
  lemma TieSays(f: seq<seq<int>>, n: nat, ts: TS, frames: seq<Frame>, t: nat, u: nat, traces: iset<seq<Env>>, p: nat,
      a: int, b: int)
    returns (half: iset<seq<Env>>, next: iset<seq<Env>>)
    requires Wf(ts) && t < |frames| && u < |frames| && frames[u].lits.Keys == Names(ts)
    requires p < |ts.state| && ts.state[p] in States(ts) && b == frames[u].lits[ts.state[p]]
    requires FramesOk(f, n, frames) && Shows(f, frames, Tied(ts, traces, t, u, p))
    requires LitFor(f, n, frames, t, ts.next[ts.state[p]], a)
    ensures half == Carried(ts, traces, t, u, p) && next == Tied(ts, traces, t, u, p + 1)
    ensures next <= half <= Tied(ts, traces, t, u, p)
    ensures ClauseOk(n, [-a, b]) && ClauseOk(n, [a, -b])
    ensures Says(f, frames, [-a, b], half) && SaysIn(f, frames, [a, -b], half, next)
  {
    hide FramesOk, MemoOk, HoldsAll, HoldsClause, Tied, Eval;
    var x := ts.state[p];
    half, next := Carried(ts, traces, t, u, p), Tied(ts, traces, t, u, p + 1);
    FramesAt(f, n, frames, u);
    assert LitOk(n, frames[u].lits[x]);
    forall m: Model | HoldsAll(m, f)
      ensures HoldsClause(m, [-a, b]) <==> View(m, frames) in half
      ensures View(m, frames) in half ==> (HoldsClause(m, [a, -b]) <==> View(m, frames) in next)
    {
      Two(m, -a, b);
      Two(m, a, -b);
      var tr := View(m, frames);
      TiedNext(ts, traces, t, u, p, tr);
      assert x in tr[u] <==> HoldsLit(m, b);
      assert Eval(ts.next[x], tr[t]) <==> HoldsLit(m, a);
    }
    NextInHalf(ts, traces, t, u, p);
  }

  lemma NextInHalf(ts: TS, traces: iset<seq<Env>>, t: nat, u: nat, p: nat)
    requires p < |ts.state| && ts.state[p] in States(ts) && States(ts) <= ts.next.Keys
    ensures Tied(ts, traces, t, u, p + 1) <= Carried(ts, traces, t, u, p)
  {
  }

  /** The two clauses of one state bit: a <-> b. */
  method TieBit(s: Solver, ts: TS, ghost frames: seq<Frame>, ghost t: nat, ghost u: nat, ghost traces: iset<seq<Env>>,
      ghost p: nat, a: int, b: int)
    requires Wf(ts) && t < |frames| && u < |frames| && frames[u].lits.Keys == Names(ts)
    requires p < |ts.state| && ts.state[p] in States(ts) && b == frames[u].lits[ts.state[p]]
    requires Ok(s, frames, Tied(ts, traces, t, u, p))
    requires LitFor(s.formula, s.nVars, frames, t, ts.next[ts.state[p]], a)
    modifies s
    ensures Ok(s, frames, Tied(ts, traces, t, u, p + 1))
    ensures old(s.formula) <= s.formula && s.nVars == old(s.nVars)
  {
    hide FramesOk, Shows, LitFor, Ok, Says, SaysIn, ClauseOk, Tied, Carried;
    ghost var f, n := s.formula, s.nVars;
    OkParts(s, frames, Tied(ts, traces, t, u, p));
    ghost var half, next := TieSays(f, n, ts, frames, t, u, traces, p, a, b);
    Constrain(s, [-a, b], frames, Tied(ts, traces, t, u, p), half);
    TieSays2(s.formula, n, f, frames, half, next, [-a, b], [a, -b]);
    Constrain(s, [a, -b], frames, half, next);
  }

  ghost predicate SaysIn(f: seq<seq<int>>, frames: seq<Frame>, c: seq<int>, half: iset<seq<Env>>,
      next: iset<seq<Env>>) {
    forall m: Model | HoldsAll(m, f) && View(m, frames) in half :: HoldsClause(m, c) <==> View(m, frames) in next
  }

  lemma TieSays2(f': seq<seq<int>>, n: nat, f: seq<seq<int>>, frames: seq<Frame>, half: iset<seq<Env>>,
      next: iset<seq<Env>>,
                 c: seq<int>, d: seq<int>)
    requires f' == f + [c] && Says(f, frames, c, half) && SaysIn(f, frames, d, half, next)
    ensures Says(f', frames, d, next)
  {
    forall m: Model | HoldsAll(m, f') ensures HoldsClause(m, d) <==> View(m, frames) in next {
      HoldsAllAppend(m, f, c);
    }
  }

  // ---- queries -----------------------------------------------------------------------

  /** The traces in which the signal has the value `val` in cycle `t`. */
  ghost function Having(traces: iset<seq<Env>>, t: nat, sig: Sig, val: bool): iset<seq<Env>> {
    iset tr | tr in traces && t < |tr| && Eval(sig, tr[t]) == val
  }

  lemma LitSays(s: Solver, frames: seq<Frame>, t: nat, sig: Sig, lit: int, val: bool, traces: iset<seq<Env>>)
    requires Ok(s, frames, traces) && LitFor(s.formula, s.nVars, frames, t, sig, lit)
    ensures ClauseOk(s.nVars, [if val then lit else -lit])
    ensures Says(s.formula, frames, [if val then lit else -lit], Having(traces, t, sig, val))
  {
    hide Solver.Valid, FramesOk;
    var c := [if val then lit else -lit];
    assert c[0] in c;
    forall m: Model | HoldsAll(m, s.formula)
      ensures HoldsClause(m, c) <==> View(m, frames) in Having(traces, t, sig, val)
    {
      assert HoldsLit(m, lit) <==> Eval(sig, View(m, frames)[t]);
    }
  }

  /** Encode a signal in cycle `t` and add its literal, or the negation, as a clause. */
  method AssertSig(s: Solver, frames: seq<Frame>, t: nat, sig: Sig, val: bool, ghost traces: iset<seq<Env>>)
    returns (frames': seq<Frame>)
    requires Ok(s, frames, traces) && t < |frames| && Support(sig) <= frames[t].lits.Keys
    modifies s
    ensures Ok(s, frames', Having(traces, t, sig, val)) && SameLits(frames, frames')
  {
    hide Ok, LitFor, Says, ClauseOk;
    var lit;
    lit, frames' := Encode(s, frames, t, sig, traces);
    LitSays(s, frames', t, sig, lit, val, traces);
    Constrain(s, [if val then lit else -lit], frames', traces, Having(traces, t, sig, val));
  }

  /** A solver that says nothing yet. */
  lemma OkEmpty(s: Solver)
    requires s.Valid() && s.formula == [] && s.trueLit == 0
    ensures Ok(s, [], iset{[]})
  {
    hide Solver.Valid;
    var m: Model := {};
    assert View(m, []) == [] && HoldsAll(m, s.formula);
    assert Realised(s.formula, [], []);
  }

  lemma NoModel(f: seq<seq<int>>, frames: seq<Frame>, traces: iset<seq<Env>>)
    requires Shows(f, frames, traces) && Refutes(f, [])
    ensures traces == iset{}
  {
    forall tr ensures tr !in traces {
      forall m: Model ensures !HoldsAll(m, f) {
        assert HoldsLits(m, []);
      }
      assert !Realised(f, frames, tr);
    }
  }

  /** Ask the solver: a model is one of the traces; without one there are none. */
  method Check(s: Solver, ghost frames: seq<Frame>, ghost traces: iset<seq<Env>>) returns (sat: bool)
    requires Ok(s, frames, traces)
    modifies s
    ensures s.Valid() && s.nVars == old(s.nVars)
    ensures sat ==> View(TrueVars(s.A()), frames) in traces
    ensures !sat ==> traces == iset{}
  {
    hide Solver.Valid, FramesOk, TrueOk;
    sat := s.Solve([]);
    if !sat {
      NoModel(s.formula, frames, traces);
    }
  }

  /** The names of `ns` that are 1 in the solver's model. */
  method ReadFrame(s: Solver, fr: Frame, ns: seq<Name>) returns (e: Env)
    requires Positive(fr) && NameSet(ns) <= fr.lits.Keys
    ensures e == EnvOf(TrueVars(s.A()), fr.lits) * NameSet(ns)
  {
    e := {};
    var i := 0;
    while i < |ns|
      invariant i <= |ns| && e == EnvOf(TrueVars(s.A()), fr.lits) * NameSet(ns[..i])
    {
      assert ns[..i + 1] == ns[..i] + [ns[i]] && ns[i] in NameSet(ns);
      assert NameSet(ns[..i + 1]) == NameSet(ns[..i]) + {ns[i]};
      if s.GetValue(fr.lits[ns[i]]) {
        e := e + {ns[i]};
      }
      i := i + 1;
    }
    assert ns[..i] == ns;
  }

  method ReadFrames(s: Solver, frames: seq<Frame>, ns: seq<Name>) returns (tr: seq<Env>)
    requires forall t | 0 <= t < |frames| :: Positive(frames[t]) && NameSet(ns) <= frames[t].lits.Keys
    ensures |tr| == |frames|
    ensures forall t | 0 <= t < |frames| :: tr[t] == View(TrueVars(s.A()), frames)[t] * NameSet(ns)
  {
    tr := [];
    while |tr| < |frames|
      invariant |tr| <= |frames|
      invariant forall t | 0 <= t < |tr| :: tr[t] == EnvOf(TrueVars(s.A()), frames[t].lits) * NameSet(ns)
    {
      var e := ReadFrame(s, frames[|tr|], ns);
      tr := tr + [e];
    }
  }
}

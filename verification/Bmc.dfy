/** Bounded model checking: unroll from reset and ask for a bad cycle, depth by depth. */
module Bmc {
  import opened Circuit
  import opened Cdcl
  import opened Search
  import opened Trail
  import opened Transition
  import opened Frames

  ghost function Paths(ts: TS, len: nat): iset<seq<Env>>
    requires Wf(ts)
  {
    iset tr: seq<Env> | |tr| == len && Path(ts, tr)
  }

  ghost function Runs(ts: TS, len: nat): iset<seq<Env>>
    requires Wf(ts)
  {
    iset tr: seq<Env> | |tr| == len && Run(ts, tr)
  }

  lemma NextToAll(ts: TS, e: Env, e': Env)
    requires Wf(ts)
    ensures NextTo(ts, e, e', |ts.state|) <==> e' * States(ts) == Next(ts, e)
  {
    if NextTo(ts, e, e', |ts.state|) {
      forall n | n in States(ts) ensures n in e' <==> n in Next(ts, e) {
        var q :| 0 <= q < |ts.state| && ts.state[q] == n;
      }
    } else {
      var q :| 0 <= q < |ts.state| && !(ts.state[q] in e' <==> Eval(ts.next[ts.state[q]], e));
      assert ts.state[q] in States(ts);
      assert ts.state[q] in e' * States(ts) <==> ts.state[q] in e';
      assert ts.state[q] in Next(ts, e) <==> Eval(ts.next[ts.state[q]], e);
    }
  }

  lemma InitToAll(ts: TS, e: Env)
    requires Wf(ts)
    ensures InitTo(ts, e, |ts.state|) <==> e * States(ts) == InitState(ts)
  {
    if InitTo(ts, e, |ts.state|) {
      forall n | n in States(ts) ensures n in e <==> n in InitState(ts) {
        var q :| 0 <= q < |ts.state| && ts.state[q] == n;
      }
    } else {
      var q :| 0 <= q < |ts.state| && !(ts.state[q] in e <==> ts.init[ts.state[q]]);
      assert ts.state[q] in States(ts);
      assert ts.state[q] in e * States(ts) <==> ts.state[q] in e;
      assert ts.state[q] in InitState(ts) <==> ts.init[ts.state[q]];
    }
  }

  lemma FirstFrame(ts: TS)
    requires Wf(ts)
    ensures Extended(iset{[]}, 0, Names(ts)) == Paths(ts, 1)
    ensures FromInit(ts, Paths(ts, 1), 0, |ts.state|) == Runs(ts, 1)
  {
    forall tr: seq<Env> ensures tr in Extended(iset{[]}, 0, Names(ts)) <==> tr in Paths(ts, 1) {
      if |tr| == 1 { assert tr[..0] == []; }
    }
    forall tr: seq<Env> ensures tr in FromInit(ts, Paths(ts, 1), 0, |ts.state|) <==> tr in Runs(ts, 1) {
      if |tr| == 1 { InitToAll(ts, tr[0]); }
    }
  }

  /** One more frame, tied to the last: the runs one step longer. */
  lemma TiedRuns(ts: TS, len: nat)
    requires Wf(ts) && len > 0
    ensures Tied(ts, Extended(Runs(ts, len), len, Names(ts)), len - 1, len, |ts.state|) == Runs(ts, len + 1)
  {
    var tied, longer := Tied(ts, Extended(Runs(ts, len), len, Names(ts)), len - 1, len, |ts.state|), Runs(ts, len + 1);
    forall tr: seq<Env> ensures tr in tied <==> tr in longer {
      if |tr| == len + 1 {
        PathLast(ts, tr);
        NextToAll(ts, tr[len - 1], tr[len]);
      }
    }
    assert tied == longer;
  }

  lemma PathLast(ts: TS, tr: seq<Env>)
    requires Wf(ts) && |tr| > 1
    ensures var k := |tr| - 1; Path(ts, tr) <==> Path(ts, tr[..k]) && tr[k] <= Names(ts) && Steps(ts, tr[k - 1], tr[k])
  {
    var k := |tr| - 1;
    if Path(ts, tr[..k]) && tr[k] <= Names(ts) && Steps(ts, tr[k - 1], tr[k]) {
      PathAppend(ts, tr[..k], tr[k]);
      assert tr[..k] + [tr[k]] == tr;
    }
  }

  ghost predicate FramesFor(ts: TS, frames: seq<Frame>) {
    forall t | 0 <= t < |frames| :: frames[t].lits.Keys == Names(ts) && Positive(frames[t])
  }

  /** unroll, from reset: the models are the runs of k steps. */
  method Unroll(s: Solver, ts: TS, k: nat) returns (frames: seq<Frame>)
    requires Ok(s, [], iset{[]}) && Wf(ts)
    modifies s
    ensures Ok(s, frames, Runs(ts, k + 1)) && |frames| == k + 1 && FramesFor(ts, frames)
  {
    hide Ok, Extended, FromInit, Runs, Paths, Tied, Wf;
    var fr := FreshFrame(s, ts, [], iset{[]});
    assert [] + [fr] == [fr];
    FirstFrame(ts);
    frames := [fr];
    AssertInit(s, ts, frames, 0, Paths(ts, 1));
    var i := 0;
    while i < k
      invariant i <= k && |frames| == i + 1 && FramesFor(ts, frames)
      invariant Ok(s, frames, Runs(ts, i + 1))
    {
      fr := FreshFrame(s, ts, frames, Runs(ts, i + 1));
      frames := frames + [fr];
      frames := Tie(s, ts, frames, i, i + 1, Extended(Runs(ts, i + 1), i + 1, Names(ts)));
      TiedRuns(ts, i + 1);
      i := i + 1;
    }
  }

  datatype Result =
    | Cex(depth: nat, trace: seq<Env>)
    | SafeUpTo(bound: nat)

  /** A run, read at the names `ns`, with bad in its last cycle. */
  ghost predicate Witness(ts: TS, ns: set<Name>, rows: seq<Env>)
    requires Wf(ts)
  {
    exists tr :: Reads(ns, tr, rows) && Run(ts, tr) && Eval(ts.bad, tr[|tr| - 1])
  }

  ghost predicate Reads(ns: set<Name>, tr: seq<Env>, rows: seq<Env>) {
    |tr| == |rows| && forall t | 0 <= t < |rows| :: rows[t] == tr[t] * ns
  }

  /** The query at one depth, and the values of `ns` in its answer. */
  method BadQuery(ts: TS, k: nat, ns: seq<Name>) returns (rows: Option<seq<Env>>)
    requires Wf(ts) && NameSet(ns) <= Names(ts)
    ensures rows.Some? <==> BadAt(ts, k)
    ensures rows.Some? ==> |rows.value| == k + 1 && Witness(ts, NameSet(ns), rows.value)
  {
    hide Ok, Wf, FramesOk, Runs, Having, Witness, BadAt, Reads, Solver.Valid;
    var s := new Solver();
    OkEmpty(s);
    var frames := Unroll(s, ts, k);
    BadReads(ts);
    ghost var fr0 := frames;
    frames := AssertSig(s, frames, k, ts.bad, true, Runs(ts, k + 1));
    ghost var traces := Having(Runs(ts, k + 1), k, ts.bad, true);
    var sat := Check(s, frames, traces);
    if sat {
      var tr := ReadRows(s, ts, fr0, frames, ns);
      FoundRun(ts, k, View(TrueVars(s.A()), frames), NameSet(ns), tr);
      rows := Some(tr);
    } else {
      NoBadRun(ts, k);
      rows := None;
    }
  }

  lemma FoundRun(ts: TS, k: nat, tr: seq<Env>, ns: set<Name>, rows: seq<Env>)
    requires Wf(ts) && tr in Having(Runs(ts, k + 1), k, ts.bad, true) && Reads(ns, tr, rows)
    ensures BadAt(ts, k) && |rows| == k + 1 && Witness(ts, ns, rows)
  {
  }

  lemma NoBadRun(ts: TS, k: nat)
    requires Wf(ts) && Having(Runs(ts, k + 1), k, ts.bad, true) == iset{}
    ensures !BadAt(ts, k)
  {
    forall tr ensures !(|tr| == k + 1 && Run(ts, tr) && Eval(ts.bad, tr[k])) {
      assert tr !in Having(Runs(ts, k + 1), k, ts.bad, true);
    }
  }

  lemma BadReads(ts: TS)
    requires Wf(ts)
    ensures Support(ts.bad) <= Names(ts)
  {
  }

  /** trace: the values of `ns` in every frame. */
  method ReadRows(s: Solver, ts: TS, ghost fr0: seq<Frame>, frames: seq<Frame>, ns: seq<Name>) returns (rows: seq<Env>)
    requires FramesFor(ts, fr0) && SameLits(fr0, frames) && NameSet(ns) <= Names(ts)
    ensures Reads(NameSet(ns), View(TrueVars(s.A()), frames), rows)
  {
    rows := ReadFrames(s, frames, ns);
  }

  /** bmc: a counterexample of the least depth there is, or none within the bound. */
  method Bmc(ts: TS, kmax: nat) returns (r: Result)
    requires Wf(ts)
    ensures r.Cex? ==>
      && r.depth <= kmax && BadAt(ts, r.depth) && (forall j: nat | j < r.depth :: !BadAt(ts, j))
      && |r.trace| == r.depth + 1 && Witness(ts, States(ts), r.trace)
    ensures r.SafeUpTo? ==> r.bound == kmax && forall j: nat | j <= kmax :: !BadAt(ts, j)
  {
    assert NameSet(ts.state) == States(ts);
    var k := 0;
    while k <= kmax
      invariant k <= kmax + 1 && forall j: nat | j < k :: !BadAt(ts, j)
    {
      var rows := BadQuery(ts, k, ts.state);
      if rows.Some? {
        return Cex(k, rows.value);
      }
      k := k + 1;
    }
    r := SafeUpTo(kmax);
  }
}

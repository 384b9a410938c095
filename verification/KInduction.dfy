/** Temporal induction: no bad cycle near reset, and none after k good cycles in a
    row anywhere. */
module KInduction {
  import opened Circuit
  import opened Cdcl
  import opened Search
  import opened Trail
  import opened Transition
  import opened Frames
  import opened Bmc

  datatype Verdict =
    | Proved(k: nat)
    | Falsified(k: nat, trace: seq<Env>)
    | Stalled(kmax: nat, cti: Option<seq<Env>>)

  /** A path of k cycles without bad, and one more with it: what the step query looks for. */
  ghost predicate Cti(ts: TS, k: nat, tr: seq<Env>)
    requires Wf(ts)
  {
    |tr| == k + 1 && Path(ts, tr) && Eval(ts.bad, tr[k]) && forall t | 0 <= t < k :: !Eval(ts.bad, tr[t])
  }

  ghost predicate HasCti(ts: TS, k: nat)
    requires Wf(ts)
  {
    exists tr :: Cti(ts, k, tr)
  }

  /** `rows` are the state bits of a counterexample to induction. */
  ghost predicate CtiRows(ts: TS, k: nat, rows: seq<Env>)
    requires Wf(ts)
  {
    exists tr :: Cti(ts, k, tr) && Reads(States(ts), tr, rows)
  }

  lemma RunPrefix(ts: TS, tr: seq<Env>, k: nat)
    requires Wf(ts) && Run(ts, tr) && 0 < k <= |tr|
    ensures Run(ts, tr[..k])
  {
    PathSlice(ts, tr, 0, k);
    assert tr[0..k] == tr[..k];
  }

  /** With no bad up to depth k-1 and no counterexample to the step, there is none at all. */
  lemma {:induction false} Inductive(ts: TS, k: nat, j: nat)
    requires Wf(ts) && k > 0
    requires forall i: nat | i < k :: !BadAt(ts, i)
    requires !HasCti(ts, k)
    ensures !BadAt(ts, j)
    decreases j
  {
    if j >= k {
      forall tr ensures !(|tr| == j + 1 && Run(ts, tr) && Eval(ts.bad, tr[j])) {
        if |tr| == j + 1 && Run(ts, tr) {
          var seg := tr[j - k..];
          PathSlice(ts, tr, j - k, j + 1);
          assert tr[j - k..j + 1] == seg;
          forall t: nat | t < k ensures !Eval(ts.bad, seg[t]) {
            var i := j - k + t;
            Inductive(ts, k, i);
            RunPrefix(ts, tr, i + 1);
            assert tr[..i + 1][i] == seg[t];
          }
          assert !Cti(ts, k, seg);
          assert seg[k] == tr[j];
        }
      }
    }
  }

  // ---- the step query ---------------------------------------------------------------

  /** All sequences of `len` valuations, the first `p` steps of which are the system's. */
  ghost function Walks(ts: TS, len: nat, p: nat): iset<seq<Env>>
    requires Wf(ts)
  {
    iset tr: seq<Env> | |tr| == len && (forall t | 0 <= t < len :: tr[t] <= Names(ts)) && p < len
      && forall t | 0 < t <= p :: Steps(ts, tr[t - 1], tr[t])
  }

  lemma MoreFree(ts: TS, len: nat)
    requires Wf(ts) && len > 0
    ensures Extended(Walks(ts, len, 0), len, Names(ts)) == Walks(ts, len + 1, 0)
  {
    forall tr: seq<Env> ensures tr in Extended(Walks(ts, len, 0), len, Names(ts)) <==> tr in Walks(ts, len + 1, 0) {
      if tr in Extended(Walks(ts, len, 0), len, Names(ts)) {
        forall t | 0 <= t < len + 1 ensures tr[t] <= Names(ts) {
          if t < len { assert tr[t] == tr[..len][t]; }
        }
      }
    }
  }

  lemma FirstFree(ts: TS)
    requires Wf(ts)
    ensures Extended(iset{[]}, 0, Names(ts)) == Walks(ts, 1, 0)
  {
    forall tr: seq<Env> ensures tr in Extended(iset{[]}, 0, Names(ts)) <==> tr in Walks(ts, 1, 0) {
      if |tr| == 1 { assert tr[..0] == []; }
    }
  }

  lemma OneMoreStep(ts: TS, len: nat, p: nat)
    requires Wf(ts) && p + 1 < len
    ensures Tied(ts, Walks(ts, len, p), p, p + 1, |ts.state|) == Walks(ts, len, p + 1)
  {
    var tied, walks := Tied(ts, Walks(ts, len, p), p, p + 1, |ts.state|), Walks(ts, len, p + 1);
    forall tr: seq<Env> ensures tr in tied <==> tr in walks {
      if |tr| == len {
        NextToAll(ts, tr[p], tr[p + 1]);
      }
    }
    assert tied == walks;
  }

  /** Walks whose first `p` cycles are good. */
  ghost function Good(ts: TS, k: nat, p: nat): iset<seq<Env>>
    requires Wf(ts) && p <= k
  {
    var walks := Walks(ts, k + 1, k);
    iset tr | tr in walks && forall t | 0 <= t < p :: !Eval(ts.bad, tr[t])
  }

  lemma OneMoreGood(ts: TS, k: nat, p: nat)
    requires Wf(ts) && p < k
    ensures Having(Good(ts, k, p), p, ts.bad, false) == Good(ts, k, p + 1)
  {
  }

  /** The query's traces are the counterexamples to induction. */
  lemma CtiTraces(ts: TS, k: nat, tr: seq<Env>)
    requires Wf(ts)
    ensures tr in Having(Good(ts, k, k), k, ts.bad, true) <==> Cti(ts, k, tr)
  {
  }

  method FreeFrames(s: Solver, ts: TS, len: nat) returns (frames: seq<Frame>)
    requires Ok(s, [], iset{[]}) && Wf(ts) && len > 0
    modifies s
    ensures Ok(s, frames, Walks(ts, len, 0)) && |frames| == len && FramesFor(ts, frames)
  {
    hide Ok, Extended, Walks, Wf;
    var fr := FreshFrame(s, ts, [], iset{[]});
    assert [] + [fr] == [fr];
    FirstFree(ts);
    frames := [fr];
    while |frames| < len
      invariant 0 < |frames| <= len && FramesFor(ts, frames) && Ok(s, frames, Walks(ts, |frames|, 0))
    {
      fr := FreshFrame(s, ts, frames, Walks(ts, |frames|, 0));
      MoreFree(ts, |frames|);
      frames := frames + [fr];
    }
  }

  method TieAll(s: Solver, ts: TS, frames0: seq<Frame>, k: nat) returns (frames: seq<Frame>)
    requires |frames0| == k + 1 && FramesFor(ts, frames0) && Wf(ts) && Ok(s, frames0, Walks(ts, k + 1, 0))
    modifies s
    ensures Ok(s, frames, Walks(ts, k + 1, k)) && |frames| == k + 1 && FramesFor(ts, frames)
  {
    hide Ok, Tied, Walks, Wf;
    frames := frames0;
    var i := 0;
    while i < k
      invariant i <= k && Ok(s, frames, Walks(ts, k + 1, i)) && |frames| == k + 1 && FramesFor(ts, frames)
    {
      frames := Tie(s, ts, frames, i, i + 1, Walks(ts, k + 1, i));
      OneMoreStep(ts, k + 1, i);
      i := i + 1;
    }
  }

  method AssumeGood(s: Solver, ts: TS, frames0: seq<Frame>, k: nat) returns (frames: seq<Frame>)
    requires |frames0| == k + 1 && FramesFor(ts, frames0) && Wf(ts) && Ok(s, frames0, Walks(ts, k + 1, k))
    modifies s
    ensures Ok(s, frames, Good(ts, k, k)) && |frames| == k + 1 && FramesFor(ts, frames)
  {
    hide Ok, Having, Walks, Wf;
    assert Good(ts, k, 0) == Walks(ts, k + 1, k);
    hide Good;
    BadReads(ts);
    frames := frames0;
    var i := 0;
    while i < k
      invariant i <= k && Ok(s, frames, Good(ts, k, i)) && |frames| == k + 1 && FramesFor(ts, frames)
    {
      frames := AssertSig(s, frames, i, ts.bad, false, Good(ts, k, i));
      OneMoreGood(ts, k, i);
      i := i + 1;
    }
  }

  /** The step at k: is there a counterexample to induction? */
  method StepQuery(ts: TS, k: nat) returns (cti: Option<seq<Env>>)
    requires Wf(ts) && k > 0
    ensures cti.Some? <==> HasCti(ts, k)
    ensures cti.Some? ==> CtiRows(ts, k, cti.value)
  {
    hide Ok, Wf, Having, Walks, Good, Cti, Reads, Solver.Valid;
    var s := new Solver();
    OkEmpty(s);
    var frames := FreeFrames(s, ts, k + 1);
    frames := TieAll(s, ts, frames, k);
    frames := AssumeGood(s, ts, frames, k);
    BadReads(ts);
    ghost var fr0 := frames;
    frames := AssertSig(s, frames, k, ts.bad, true, Good(ts, k, k));
    var sat := Check(s, frames, Having(Good(ts, k, k), k, ts.bad, true));
    forall tr ensures tr in Having(Good(ts, k, k), k, ts.bad, true) <==> Cti(ts, k, tr) {
      CtiTraces(ts, k, tr);
    }
    if sat {
      StateNames(ts);
      var rows := ReadRows(s, ts, fr0, frames, ts.state);
      cti := Some(rows);
      assert Cti(ts, k, View(TrueVars(s.A()), frames));
    } else {
      cti := None;
    }
  }

  lemma StateNames(ts: TS)
    ensures NameSet(ts.state) == States(ts) <= Names(ts)
  {
  }

  /** k_induction. */
  method KInduction(ts: TS, kmax: nat) returns (r: Verdict)
    requires Wf(ts)
    ensures r.Proved? ==>
      && 1 <= r.k <= kmax && Safe(ts)
      && !HasCti(ts, r.k) && forall i: nat | 1 <= i < r.k :: HasCti(ts, i)
    ensures r.Falsified? ==>
      && 1 <= r.k <= kmax && BadAt(ts, r.k - 1) && (forall j: nat | j < r.k - 1 :: !BadAt(ts, j))
      && |r.trace| == r.k && Witness(ts, States(ts), r.trace)
    ensures r.Stalled? ==>
      && r.kmax == kmax && (forall j: nat | j < kmax :: !BadAt(ts, j))
      && (forall k: nat | 1 <= k <= kmax :: HasCti(ts, k))
      && if kmax == 0 then r.cti.None? else r.cti.Some? && CtiRows(ts, kmax, r.cti.value)
  {
    hide HasCti, CtiRows, Witness, BadAt;
    var last: Option<seq<Env>> := None;
    var k := 1;
    while k <= kmax
      invariant 1 <= k <= kmax + 1 && forall j: nat | j < k - 1 :: !BadAt(ts, j)
      invariant forall i: nat | 1 <= i < k :: HasCti(ts, i)
      invariant if k == 1 then last.None? else last.Some? && CtiRows(ts, k - 1, last.value)
    {
      var base := Bmc.Bmc(ts, k - 1);
      if base.Cex? {
        return Falsified(k, base.trace);
      }
      var cti := StepQuery(ts, k);
      if cti.None? {
        forall j: nat ensures !BadAt(ts, j) { Inductive(ts, k, j); }
        return Proved(k);
      }
      last := cti;
      k := k + 1;
    }
    r := Stalled(kmax, last);
  }
}

/** Transition systems: state bits with next-state functions and reset values,
    inputs, and the property's negation. */
module Transition {
  import opened Circuit

  datatype TS = TS(
    state: seq<Name>,
    inputs: seq<Name>,
    next: map<Name, Sig>,
    init: map<Name, bool>,
    bad: Sig,
    liveness: seq<(Sig, Sig)>,   // (antecedent, what must eventually follow)
    assumptions: seq<Sig>)       // each holds in every cycle

  predicate Distinct<T(==)>(s: seq<T>) {
    forall i, j | 0 <= i < j < |s| :: s[i] != s[j]
  }

  function States(ts: TS): set<Name> {
    set n | n in ts.state
  }

  function Inputs(ts: TS): set<Name> {
    set n | n in ts.inputs
  }

  function Names(ts: TS): set<Name> {
    States(ts) + Inputs(ts)
  }

  /** What the engines need of a system: no name is declared twice, and every
      function reads declared names. */
  ghost predicate Wf(ts: TS) {
    && Distinct(ts.state) && Distinct(ts.inputs) && States(ts) !! Inputs(ts)
    && States(ts) <= ts.next.Keys && States(ts) <= ts.init.Keys
    && (forall n | n in ts.state :: Support(ts.next[n]) <= Names(ts))
    && Support(ts.bad) <= Names(ts)
  }

  // ---- runs -------------------------------------------------------------------

  /** The state after a cycle in which the bits and inputs in `e` are 1. */
  function Next(ts: TS, e: Env): Env
    requires States(ts) <= ts.next.Keys
  {
    set n | n in States(ts) && Eval(ts.next[n], e)
  }

  function InitState(ts: TS): Env
    requires States(ts) <= ts.init.Keys
  {
    set n | n in States(ts) && ts.init[n]
  }

  ghost function AllStates(ts: TS): set<Env> {
    set e: Env | e <= States(ts)
  }

  predicate Starts(ts: TS, e: Env)
    requires States(ts) <= ts.init.Keys
  {
    e <= Names(ts) && e * States(ts) == InitState(ts)
  }

  predicate Steps(ts: TS, e: Env, e': Env)
    requires States(ts) <= ts.next.Keys
  {
    e' <= Names(ts) && e' * States(ts) == Next(ts, e)
  }

  /** Consecutive cycles, each a valuation of state bits and inputs. */
  predicate Path(ts: TS, tr: seq<Env>)
    requires States(ts) <= ts.next.Keys
  {
    && (forall t | 0 <= t < |tr| :: tr[t] <= Names(ts))
    && (forall t | 0 < t < |tr| :: Steps(ts, tr[t - 1], tr[t]))
  }

  /** A finite run from reset. */
  predicate Run(ts: TS, tr: seq<Env>)
    requires States(ts) <= ts.next.Keys && States(ts) <= ts.init.Keys
  {
    |tr| > 0 && Starts(ts, tr[0]) && Path(ts, tr)
  }

  /** A run of `k` steps from reset ends in a cycle where bad holds. */
  ghost predicate BadAt(ts: TS, k: nat)
    requires States(ts) <= ts.next.Keys && States(ts) <= ts.init.Keys
  {
    exists tr :: |tr| == k + 1 && Run(ts, tr) && Eval(ts.bad, tr[k])
  }

  ghost predicate Safe(ts: TS)
    requires States(ts) <= ts.next.Keys && States(ts) <= ts.init.Keys
  {
    forall k: nat :: !BadAt(ts, k)
  }

  lemma PathAppend(ts: TS, tr: seq<Env>, e: Env)
    requires States(ts) <= ts.next.Keys && Path(ts, tr) && e <= Names(ts)
    requires tr != [] ==> Steps(ts, tr[|tr| - 1], e)
    ensures Path(ts, tr + [e])
  {
  }

  lemma PathSlice(ts: TS, tr: seq<Env>, i: nat, j: nat)
    requires States(ts) <= ts.next.Keys && Path(ts, tr) && i <= j <= |tr|
    ensures Path(ts, tr[i..j])
  {
    var cut := tr[i..j];
    forall t | 0 < t < |cut| ensures Steps(ts, cut[t - 1], cut[t]) {
      assert cut[t] == tr[i + t] && cut[t - 1] == tr[i + t - 1];
    }
  }

  // ---- building a system --------------------------------------------------------

  /** The system with one more state bit. */
  function WithBit(ts: TS, name: Name, reset: bool, nxt: Sig): TS {
    ts.(state := ts.state + [name], next := ts.next[name := nxt], init := ts.init[name := reset])
  }

  class TransitionSystem {
    var state: seq<Name>
    var inputs: seq<Name>
    var next: map<Name, Sig>
    var init: map<Name, bool>
    var bad: Sig
    var liveness: seq<(Sig, Sig)>
    var assumptions: seq<Sig>

    function Value(): TS
      reads this
    {
      TS(state, inputs, next, init, bad, liveness, assumptions)
    }

    constructor ()
      ensures Value() == TS([], [], map[], map[], FALSE, [], [])
    {
      state, inputs, next, init, bad, liveness, assumptions := [], [], map[], map[], FALSE, [], [];
    }

    method AddStateBit(name: Name, reset: bool, nxt: Sig)
      modifies `state, `next, `init
      ensures Value() == WithBit(old(Value()), name, reset, nxt)
    {
      state := state + [name];
      init := init[name := reset];
      next := next[name := nxt];
    }

    method AddInput(name: Name) returns (v: Sig)
      modifies `inputs
      ensures Value() == old(Value()).(inputs := old(inputs) + [name]) && v == Leaf(name)
    {
      inputs := inputs + [name];
      v := Leaf(name);
    }
  }
}

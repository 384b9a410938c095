/** The two-phase simulator: pending writes, commits, and a queue of blocks to re-run. */
module ActorSim {

  /** A hardware actor: a flip-flop, or a block that computes `outs` from `ins`. */
  datatype Module =
    | Dff(d: nat, q: nat, reset: int)
    | Comb(ins: set<nat>, outs: seq<nat>, fn: seq<int> -> seq<int>)

  // ---- one signal ---------------------------------------------------------------------------

  datatype Signal = Signal(current: int, next: int, pending: bool)

  /** The value the signal has or is about to have. */
  function Effective(x: Signal): int {
    if x.pending then x.next else x.current
  }

  /** Nothing stale: without a pending write the two values agree. */
  predicate Clean(x: Signal) {
    x.pending || x.next == x.current
  }

  /** Signal::write. */
  function Written(x: Signal, v: int): Signal {
    if v != x.current && v != x.next then x.(next := v, pending := true)
    else if v == x.current && x.pending then x.(next := x.current, pending := false)
    else x
  }

  /** A write takes effect exactly unless it repeats the stale next value of a signal
      with no write pending. Forcing a value can leave one behind. */
  lemma WriteEffect(x: Signal, v: int)
    ensures Effective(Written(x, v)) == v <==> Takes(x, v)
    ensures !Takes(x, v) ==> Written(x, v) == x
    ensures Clean(x) ==> Clean(Written(x, v)) && Effective(Written(x, v)) == v
    ensures Written(x, v).current == x.current
  {
  }

  /** A write of `v` takes effect. */
  predicate Takes(x: Signal, v: int) {
    x.pending || v == x.current || v != x.next
  }

  /** Signal::commit. */
  function Committed(x: Signal): Signal {
    if x.pending then Signal(x.next, x.next, false) else x
  }

  /** Signal::force, and a write that it makes ignored. */
  lemma ForcedWriteLost()
    ensures var forced := Signal(0, 0, false).(current := 1); Effective(Written(forced, 0)) == 1
  {
  }

  // ---- the netlist --------------------------------------------------------------------------

  function Outs(m: Module): seq<nat> {
    match m
    case Dff(_, q, _) => [q]
    case Comb(_, outs, _) => outs
  }

  predicate Distinct(ns: seq<nat>) {
    forall i, j | 0 <= i < j < |ns| :: ns[i] != ns[j]
  }

  /** A block computes one value for each output, from the signals it lists and no others. */
  ghost predicate Honest(m: Module, n: nat) {
    && (forall o | o in Outs(m) :: o < n) && Distinct(Outs(m))
    && match m
       case Dff(d, _, _) => d < n
       case Comb(ins, outs, fn) =>
         && (forall s | s in ins :: s < n)
         && (forall cur: seq<int> :: |fn(cur)| == |outs|)
         && forall cur: seq<int>, cur': seq<int> |
              |cur| >= n && |cur'| >= n && (forall s | s in ins && s < n :: cur[s] == cur'[s]) :: fn(cur) == fn(cur')
  }

  /** Every signal has at most one driver. */
  ghost predicate SingleDriver(ms: seq<Module>) {
    forall i, j, o | 0 <= i < |ms| && 0 <= j < |ms| && i != j && o in Outs(ms[i]) :: o !in Outs(ms[j])
  }

  predicate Listens(ms: seq<Module>, s: nat, k: nat) {
    k < |ms| && ms[k].Comb? && s in ms[k].ins
  }

  /** Reader lists are the sensitivity lists. */
  ghost predicate Subscribed(ms: seq<Module>, readers: seq<seq<nat>>) {
    forall s: nat, k: nat | s < |readers| :: k in readers[s] <==> Listens(ms, s, k)
  }

  ghost predicate Wired(ms: seq<Module>, readers: seq<seq<nat>>) {
    (forall k | 0 <= k < |ms| :: Honest(ms[k], |readers|)) && SingleDriver(ms) && Subscribed(ms, readers)
  }

  function Currents(xs: seq<Signal>): (cur: seq<int>)
    ensures |cur| == |xs| && forall s | 0 <= s < |xs| :: cur[s] == xs[s].current
  {
    seq(|xs|, s requires 0 <= s < |xs| => xs[s].current)
  }

  /** The block's outputs have, or are about to have, the values its inputs call for. */
  ghost predicate Follows(m: Module, xs: seq<Signal>) {
    m.Comb? ==> Matches(m, xs, m.fn(Currents(xs)))
  }

  /** The block's outputs have, or are about to have, these values. */
  ghost predicate Matches(m: Module, xs: seq<Signal>, vals: seq<int>) {
    && |vals| == |Outs(m)|
    && forall i | 0 <= i < |vals| :: Outs(m)[i] < |xs| && Effective(xs[Outs(m)[i]]) == vals[i]
  }

  /** The outputs are what the inputs call for. */
  ghost predicate Settled(ms: seq<Module>, cur: seq<int>) {
    forall k | 0 <= k < |ms| && ms[k].Comb? :: Agrees(ms[k], cur)
  }

  ghost predicate Agrees(m: Module, cur: seq<int>)
    requires m.Comb?
  {
    |m.fn(cur)| == |m.outs| && forall i | 0 <= i < |m.outs| :: m.outs[i] < |cur| && cur[m.outs[i]] == m.fn(cur)[i]
  }

  /** Is the signal an output of a combinational block? */
  ghost predicate IsComb(ms: seq<Module>, s: nat) {
    exists k :: 0 <= k < |ms| && ms[k].Comb? && s in ms[k].outs
  }

  // ---- settled states are determined by the state and the inputs --------------------------------

  /** The blocks can be ranked so that each reads only signals of lower rank. */
  ghost predicate Acyclic(ms: seq<Module>, rank: seq<nat>) {
    forall k, s, o | 0 <= k < |ms| && ms[k].Comb? && s in ms[k].ins && o in ms[k].outs ::
      s < |rank| && o < |rank| && rank[s] < rank[o]
  }

  /** No combinational loops, and at most 198 blocks in a row. */
  ghost predicate Ranks(ms: seq<Module>, rank: seq<nat>, n: nat) {
    |rank| == n && Acyclic(ms, rank) && forall s | 0 <= s < n :: rank[s] <= 198
  }

  ghost predicate Shallow(ms: seq<Module>, n: nat) {
    exists rank :: Ranks(ms, rank, n)
  }

  /** Every queued signal has at least rank `i`. */
  ghost predicate AllAbove(rank: seq<nat>, dirty: seq<nat>, i: nat) {
    forall s | s in dirty :: s < |rank| && rank[s] >= i
  }

  /** Block `k` listens to one of the signals. */
  ghost predicate Woken(readers: seq<seq<nat>>, dirty: seq<nat>, k: nat) {
    exists s: nat :: s in dirty && s < |readers| && k in readers[s]
  }

  /** One of the modules drives the signal. */
  ghost predicate DrivenBy(ms: seq<Module>, ks: seq<nat>, s: nat) {
    exists k: nat :: k in ks && k < |ms| && s in OutSet(ms[k])
  }

  lemma DrivenByOne(ms: seq<Module>, ks: seq<nat>, k: nat)
    requires k in ks && k < |ms|
    ensures forall s | s in OutSet(ms[k]) :: DrivenBy(ms, ks, s)
  {
  }

  lemma RankEach(ms: seq<Module>, rank: seq<nat>, n: nat)
    requires Ranks(ms, rank, n)
    ensures |rank| == n
  {
  }

  /** A round of propagation moves the queue up one rank. */
  lemma OneUp(ms: seq<Module>, readers: seq<seq<nat>>, rank: seq<nat>, dirty: seq<nat>, woken: seq<nat>,
      dirty': seq<nat>, i: nat)
    requires Wired(ms, readers) && Ranks(ms, rank, |readers|) && AllAbove(rank, dirty, i) && dirty != []
    requires forall k | k in woken :: Woken(readers, dirty, k)
    requires forall s | s in dirty' :: DrivenBy(ms, woken, s)
    ensures AllAbove(rank, dirty', i + 1) && i + 1 < MAX_PROPAGATION_ITERS
  {
    hide Honest, SingleDriver;
    assert dirty[0] in dirty;
    forall o | o in dirty' ensures o < |rank| && rank[o] >= i + 1 {
      assert DrivenBy(ms, woken, o);
      var k: nat :| k in woken && k < |ms| && o in OutSet(ms[k]);
      assert Woken(readers, dirty, k);
      var s: nat :| s in dirty && s < |readers| && k in readers[s];
      assert Listens(ms, s, k);
      assert s in ms[k].ins && o in ms[k].outs;
      assert rank[s] >= i;
      assert rank[s] < rank[o];
    }
  }

  /** Without combinational loops there is one settled state for given values of the
      signals no block drives: the order of evaluation cannot matter. */
  lemma {:induction false} SettledUnique(ms: seq<Module>, readers: seq<seq<nat>>, rank: seq<nat>, cur: seq<int>,
      cur': seq<int>, s: nat)
    requires Wired(ms, readers) && Acyclic(ms, rank) && |rank| == |readers| == |cur| == |cur'| && s < |cur|
    requires Settled(ms, cur) && Settled(ms, cur')
    requires forall u: nat | u < |cur| && !IsComb(ms, u) :: cur[u] == cur'[u]
    ensures cur[s] == cur'[s]
    decreases rank[s]
  {
    if IsComb(ms, s) {
      var k :| 0 <= k < |ms| && ms[k].Comb? && s in ms[k].outs;
      var i :| 0 <= i < |ms[k].outs| && ms[k].outs[i] == s;
      assert Honest(ms[k], |readers|);
      forall u | u in ms[k].ins ensures cur[u] == cur'[u] {
        SettledUnique(ms, readers, rank, cur, cur', u);
      }
      assert Agrees(ms[k], cur) && Agrees(ms[k], cur');
      assert ms[k].fn(cur) == ms[k].fn(cur');
    }
  }

  // ---- the simulator ----------------------------------------------------------------------------

  const MAX_PROPAGATION_ITERS: nat := 200

  /** Every pending signal is queued. */
  ghost predicate Queued(xs: seq<Signal>, dirty: seq<nat>) {
    && (forall s | s in dirty :: s < |xs|)
    && forall s: nat | s < |xs| && xs[s].pending :: s in dirty
  }

  /** Only outputs of flip-flops, which are forced when they are built, can have a stale next value. */
  ghost predicate OnlyQsStale(ms: seq<Module>, xs: seq<Signal>) {
    forall s: nat | s < |xs| && !Clean(xs[s]) :: IsQ(ms, s)
  }

  ghost predicate KeepsClean(xs: seq<Signal>, xs': seq<Signal>) {
    |xs'| == |xs| && forall s: nat | s < |xs| && Clean(xs[s]) :: Clean(xs'[s])
  }

  lemma StillOnlyQs(ms: seq<Module>, xs: seq<Signal>, xs': seq<Signal>)
    requires OnlyQsStale(ms, xs) && KeepsClean(xs, xs')
    ensures OnlyQsStale(ms, xs')
  {
    hide Clean, IsQ;
  }

  lemma KeepsTrans(xs: seq<Signal>, ys: seq<Signal>, zs: seq<Signal>)
    requires KeepsClean(xs, ys) && KeepsClean(ys, zs)
    ensures KeepsClean(xs, zs)
  {
    hide Clean;
  }

  /** The outputs of a block are clean. */
  lemma OutsClean(ms: seq<Module>, readers: seq<seq<nat>>, xs: seq<Signal>, k: nat)
    requires Wired(ms, readers) && |xs| == |readers| && OnlyQsStale(ms, xs) && k < |ms| && ms[k].Comb?
    ensures forall i | 0 <= i < |ms[k].outs| :: ms[k].outs[i] < |xs| && Clean(xs[ms[k].outs[i]])
  {
    hide Clean;
    WiredAt(ms, readers, k);
    HonestOuts(ms[k], |readers|);
    forall i | 0 <= i < |ms[k].outs| ensures Clean(xs[ms[k].outs[i]]) {
      var s := ms[k].outs[i];
      assert s in ms[k].outs && IsComb(ms, s);
      forall j | 0 <= j < |ms| && ms[j].Dff? ensures ms[j].q != s {
        WiredQ(ms, readers, j);
      }
      assert !IsQ(ms, s);
    }
  }

  /** The same committed values, and the same signals outside `outs`. */
  ghost predicate Apart(xs: seq<Signal>, xs': seq<Signal>, outs: set<nat>) {
    && Currents(xs') == Currents(xs)
    && forall s: nat | s < |xs| && s !in outs :: xs'[s] == xs[s]
  }

  ghost function OutSet(m: Module): set<nat> {
    set o | o in Outs(m)
  }

  /** A module that drives nothing here keeps following its inputs. */
  lemma StillFollows(m: Module, xs: seq<Signal>, xs': seq<Signal>, outs: set<nat>)
    requires Follows(m, xs) && Apart(xs, xs', outs) && OutSet(m) !! outs
    ensures Follows(m, xs')
  {
    if m.Comb? {
      var vals := m.fn(Currents(xs));
      forall i | 0 <= i < |vals| ensures Effective(xs'[Outs(m)[i]]) == vals[i] {
        assert Outs(m)[i] in OutSet(m);
      }
    }
  }

  lemma DriversApart(ms: seq<Module>, i: nat, j: nat)
    requires SingleDriver(ms) && i < |ms| && j < |ms| && i != j
    ensures OutSet(ms[i]) !! OutSet(ms[j])
  {
  }

  lemma WiredAt(ms: seq<Module>, readers: seq<seq<nat>>, k: nat)
    requires Wired(ms, readers) && k < |ms|
    ensures Honest(ms[k], |readers|)
  {
  }

  lemma HonestOuts(m: Module, n: nat)
    requires Honest(m, n)
    ensures forall i | 0 <= i < |Outs(m)| :: Outs(m)[i] < n
    ensures forall i, j | 0 <= i < j < |Outs(m)| :: Outs(m)[i] != Outs(m)[j]
    ensures m.Comb? ==> forall cur: seq<int> :: |m.fn(cur)| == |Outs(m)|
  {
    forall i | 0 <= i < |Outs(m)| ensures Outs(m)[i] < n { assert Outs(m)[i] in Outs(m); }
  }

  class Sim {
    var signals: seq<Signal>
    var readers: seq<seq<nat>>    // by signal: the modules to notify
    var modules: seq<Module>
    var dirty: seq<nat>           // signals with a pending write, and perhaps some without
    var notify: seq<nat>
    var inNotify: seq<bool>
    var cycle: nat

    ghost predicate Static()
      reads this
    {
      && |readers| == |signals| && |inNotify| == |modules| && Wired(modules, readers) && OnlyQsStale(modules, signals)
    }

    ghost predicate Valid()
      reads this
    {
      && Static() && Queued(signals, dirty) && notify == [] && (forall k | 0 <= k < |inNotify| :: !inNotify[k])
      && forall k | 0 <= k < |modules| :: Follows(modules[k], signals)
    }

    constructor ()
      ensures Valid() && signals == [] && readers == [] && modules == [] && cycle == 0
    {
      signals, readers, modules, dirty, notify, inNotify, cycle := [], [], [], [], [], [], 0;
    }

    /** Signal::write: a write that newly differs puts the signal in the queue. */
    method Write(s: nat, v: int)
      requires s < |signals| && Queued(signals, dirty)
      modifies `signals, `dirty
      ensures signals == old(signals)[s := Written(old(signals)[s], v)] && Queued(signals, dirty)
      ensures (Clean(old(signals)[s]) ==> Effective(signals[s]) == v) && Currents(signals) == Currents(old(signals))
      ensures KeepsClean(old(signals), signals)
      ensures forall x | x in dirty :: x in old(dirty) || x == s
    {
      var x := signals[s];
      WriteEffect(x, v);
      if !x.pending && Written(x, v).pending {
        dirty := dirty + [s];
      }
      signals := signals[s := Written(x, v)];
    }

    /** on_input_change (and on_reset) of a block: read the inputs, write the outputs. */
    method Fire(k: nat)
      requires Static() && k < |modules| && modules[k].Comb? && Queued(signals, dirty)
      modifies `signals, `dirty
      ensures Queued(signals, dirty) && |signals| == |old(signals)| && Static() && KeepsClean(old(signals), signals)
      ensures Apart(old(signals), signals, OutSet(modules[k])) && Follows(modules[k], signals)
      ensures forall s | s in dirty :: s in old(dirty) || s in OutSet(modules[k])
    {
      hide Honest, Wired, Queued, Written, OnlyQsStale, Clean;
      var m := modules[k];
      WiredAt(modules, readers, k);
      HonestOuts(m, |readers|);
      OutsClean(modules, readers, signals, k);
      var vals := m.fn(Currents(signals));
      var i := 0;
      while i < |m.outs|
        invariant i <= |m.outs| && Queued(signals, dirty) && |signals| == |old(signals)|
        invariant Apart(old(signals), signals, OutSet(m)) && KeepsClean(old(signals), signals)
        invariant forall j | 0 <= j < i :: Effective(signals[Outs(m)[j]]) == vals[j]
        invariant forall s | s in dirty :: s in old(dirty) || s in OutSet(m)
      {
        assert Outs(m)[i] in OutSet(m);
        ghost var before := signals;
        Write(m.outs[i], vals[i]);
        KeepsTrans(old(signals), before, signals);
        i := i + 1;
      }
      StillOnlyQs(modules, old(signals), signals);
    }

    /** Signal::commit. */
    method Commit(s: nat)
      requires s < |signals|
      modifies `signals
      ensures signals == old(signals)[s := Committed(old(signals)[s])]
    {
      if signals[s].pending {
        signals := signals[s := signals[s].(current := signals[s].next, pending := false)];
      }
    }

    /** The notify queue holds just the modules flagged for it, each once. */
    ghost predicate Flagged()
      reads this
    {
      && |inNotify| == |modules|
      && (forall k | k in notify :: k < |modules| && modules[k].Comb?) && Distinct(notify)
      && forall k | 0 <= k < |modules| :: inNotify[k] <==> k in notify
    }

    /** enqueue_readers: each subscriber once. */
    method EnqueueReaders(s: nat)
      requires Static() && s < |signals| && Flagged()
      modifies `notify, `inNotify
      ensures Flagged() && (forall k | k in readers[s] :: k in notify) && forall k | k in old(notify) :: k in notify
      ensures forall k | k in notify :: k in old(notify) || k in readers[s]
    {
      hide Honest, SingleDriver;
      var i := 0;
      while i < |readers[s]|
        invariant i <= |readers[s]| && Flagged()
        invariant (forall j | 0 <= j < i :: readers[s][j] in notify) && forall k | k in old(notify) :: k in notify
        invariant forall k | k in notify :: k in old(notify) || k in readers[s]
      {
        var k := readers[s][i];
        assert k in readers[s] && k < |modules| && modules[k].Comb?;
        if !inNotify[k] {
          inNotify := inNotify[k := true];
          notify := notify + [k];
        }
        i := i + 1;
      }
    }

    /** Phase A: commit what is pending and collect the readers. */
    method CommitAll()
      requires Valid()
      modifies `signals, `dirty, `notify, `inNotify
      ensures Static() && Flagged() && dirty == [] && Queued(signals, dirty) && |signals| == |old(signals)|
      ensures forall s: nat | s < |signals| :: signals[s] == Committed(old(signals)[s])
      ensures forall k: nat | k < |modules| && k !in notify :: Follows(modules[k], signals)
      ensures forall k | k in notify :: Woken(readers, old(dirty), k)
    {
      hide Honest, SingleDriver, Matches;
      var i := 0;
      while i < |dirty|
        invariant i <= |dirty| && dirty == old(dirty) && |signals| == |old(signals)| && Flagged()
            && Queued(signals, dirty)
        invariant forall s: nat | s < |signals| && s in dirty[..i] :: signals[s] == Committed(old(signals)[s])
        invariant OnlyQsStale(modules, signals) && KeepsClean(old(signals), signals)
        invariant forall s: nat | s < |signals| && s !in dirty[..i] :: signals[s] == old(signals)[s]
        invariant forall s: nat, k | s < |signals| && s in dirty[..i] && k in readers[s] :: k in notify
        invariant forall k | k in notify :: Woken(readers, dirty, k)
      {
        var s := dirty[i];
        assert s in dirty && dirty[..i + 1] == dirty[..i] + [s];
        ghost var before := signals;
        Commit(s);
        StillOnlyQs(modules, before, signals);
        EnqueueReaders(s);
        i := i + 1;
      }
      assert dirty[..i] == dirty;
      forall k: nat | k < |modules| && k !in notify ensures Follows(modules[k], signals) {
        Unnotified(modules[k], old(signals), signals, |readers|);
      }
      dirty := [];
    }

    /** Phase B: run each collected block once; new writes wait for the next round. */
    method FireAll()
      requires Static() && Flagged() && Queued(signals, dirty)
      requires forall k: nat | k < |modules| && k !in notify :: Follows(modules[k], signals)
      modifies `signals, `dirty, `notify, `inNotify
      ensures Valid() && |signals| == |old(signals)|
      ensures forall s: nat | s < |signals| && !IsComb(modules, s) :: signals[s] == old(signals)[s]
      ensures forall s | s in dirty :: s in old(dirty) || DrivenBy(modules, old(notify), s)
    {
      hide Wired, Queued, Honest, Follows, Subscribed, DrivenBy, OnlyQsStale, Clean;
      var i := 0;
      while i < |notify|
        invariant i <= |notify| && notify == old(notify) && |signals| == |old(signals)| && Static()
            && Queued(signals, dirty)
        invariant (forall k | k in notify :: k < |modules| && modules[k].Comb?)
        invariant forall k: nat | k < |modules| && (k !in notify || k in notify[..i]) :: Follows(modules[k], signals)
        invariant forall k: nat | k < |modules| && (k !in notify || k in notify[..i]) :: !inNotify[k]
        invariant forall s: nat | s < |signals| && !IsComb(modules, s) :: signals[s] == old(signals)[s]
        invariant forall s | s in dirty :: s in old(dirty) || DrivenBy(modules, notify, s)
      {
        var k := notify[i];
        DrivenByOne(modules, notify, k);
        assert k in notify && notify[..i + 1] == notify[..i] + [k];
        ghost var before := signals;
        inNotify := inNotify[k := false];
        Fire(k);
        forall j: nat | j < |modules| && j != k && (j !in notify || j in notify[..i + 1])
            ensures Follows(modules[j], signals) {
          WiredDrivers(modules, readers, j, k);
          StillFollows(modules[j], before, signals, OutSet(modules[k]));
        }
        forall s: nat | s < |signals| && !IsComb(modules, s) ensures signals[s] == before[s] {
          assert s !in OutSet(modules[k]);
        }
        i := i + 1;
      }
      assert notify[..i] == notify;
      notify := [];
    }

    /** propagate_: until nothing is dirty. It gives up after 200 rounds. */
    method Propagate() returns (ok: bool)
      requires Valid()
      modifies `signals, `dirty, `notify, `inNotify
      ensures Valid() && |signals| == |old(signals)|
      ensures ok ==> dirty == [] && Settled(modules, Currents(signals))
      ensures ok ==> forall s: nat | s < |signals| && !IsComb(modules, s) :: signals[s] == Committed(old(signals)[s])
      ensures ok ==> forall s: nat | s < |signals| :: signals[s].current == Effective(signals[s])
      ensures Shallow(modules, |signals|) ==> ok
    {
      hide Wired, Follows, Effective, Clean, Ranks, OnlyQsStale;
      var iter := 0;
      forall rank | Ranks(modules, rank, |signals|) ensures AllAbove(rank, dirty, 0) {
        RankEach(modules, rank, |signals|);
      }
      while iter < MAX_PROPAGATION_ITERS
        invariant iter <= MAX_PROPAGATION_ITERS && Valid() && |signals| == |old(signals)|
        invariant forall rank | Ranks(modules, rank, |signals|) ::
            AllAbove(rank, dirty, iter) && iter < MAX_PROPAGATION_ITERS
        invariant forall s: nat | s < |signals| && !IsComb(modules, s) ::
            Committed(signals[s]) == Committed(old(signals)[s])
      {
        if dirty == [] {
          NothingPending(signals, dirty);
          AllSettled(modules, readers, signals);
          return true;
        }
        ghost var before := dirty;
        CommitAll();
        NothingPending(signals, dirty);
        ghost var woken := notify;
        FireAll();
        forall rank | Ranks(modules, rank, |signals|)
            ensures AllAbove(rank, dirty, iter + 1) && iter + 1 < MAX_PROPAGATION_ITERS {
          OneUp(modules, readers, rank, before, woken, dirty, iter);
        }
        iter := iter + 1;
      }
      ok := false;
    }

    /** on_clock_edge of module `k`: a flip-flop writes what it reads now. */
    method Edge(k: nat)
      requires Valid() && k < |modules|
      modifies `signals, `dirty
      ensures Valid() && |signals| == |old(signals)|
      ensures modules[k].Comb? ==> signals == old(signals) && dirty == old(dirty)
      ensures modules[k].Dff? ==>
        && Apart(old(signals), signals, {modules[k].q}) && modules[k].q < |signals| && modules[k].d < |signals|
        && signals[modules[k].q] == Written(old(signals)[modules[k].q], old(signals)[modules[k].d].current)
    {
      WiredAt(modules, readers, k);
      hide Wired, Queued, Follows, Effective, Written, OnlyQsStale, Clean;
      if modules[k].Dff? {
        var m := modules[k];
        DffPorts(m, |readers|);
        ghost var before := signals;
        Write(m.q, signals[m.d].current);
        StillOnlyQs(modules, before, signals);
        EdgeKeeps(modules, readers, before, signals, k);
      }
    }

    /** The edge phase: every flip-flop in turn. `pre` is the settled state before it. */
    method Edges(ghost pre: seq<int>)
      requires Valid() && dirty == [] && pre == Currents(signals)
      requires forall s: nat | s < |signals| :: signals[s].current == Effective(signals[s])
      modifies `signals, `dirty
      ensures Valid() && |signals| == |old(signals)|
      ensures forall k | 0 <= k < |modules| && modules[k].Dff? ::
        modules[k].q < |pre| && modules[k].d < |pre|
            && signals[modules[k].q] == Written(old(signals)[modules[k].q], pre[modules[k].d])
      ensures forall s: nat | s < |signals| && !IsQ(modules, s) :: signals[s] == old(signals)[s]
    {
      hide Wired, Queued, Follows, Effective, Honest, Subscribed, Written, OnlyQsStale;
      var i := 0;
      while i < |modules|
        invariant i <= |modules| && Valid() && |signals| == |old(signals)| && Currents(signals) == pre
        invariant forall k | i <= k < |modules| && modules[k].Dff? :: modules[k].q < |pre| ==>
            signals[modules[k].q] == old(signals)[modules[k].q]
        invariant forall k | 0 <= k < i && modules[k].Dff? ::
          modules[k].q < |pre| && modules[k].d < |pre|
              && signals[modules[k].q] == Written(old(signals)[modules[k].q], pre[modules[k].d])
        invariant forall s: nat | s < |signals| && !IsQ(modules, s) :: signals[s] == old(signals)[s]
      {
        Edge(i);
        forall k: nat | k < |modules| && k != i && modules[k].Dff? && modules[i].Dff?
            ensures modules[k].q != modules[i].q {
          WiredQs(modules, readers, k, i);
        }
        i := i + 1;
      }
    }

    /** tick. */
    method Tick() returns (ok: bool, ghost pre: seq<int>)
      requires Valid()
      modifies `signals, `dirty, `notify, `inNotify, `cycle
      ensures Valid() && |signals| == |old(signals)|
      ensures ok ==>
        && cycle == old(cycle) + 1 && Clocked(modules, old(signals), pre, Currents(signals)) && dirty == []
            && |pre| == |signals|
        && forall s: nat | s < |pre| && !IsComb(modules, s) :: pre[s] == Effective(old(signals)[s])
      ensures Shallow(modules, |signals|) ==> ok
    {
      hide Wired, Queued, Follows, Honest, Subscribed, Settled, OnlyQsStale;
      ok := Propagate();
      pre := Currents(signals);
      if !ok {
        return;
      }
      ghost var settled := signals;
      Edges(pre);
      ghost var edged := signals;
      ok := Propagate();
      if !ok {
        return;
      }
      cycle := cycle + 1;
      forall k: nat | k < |modules| && modules[k].Dff? ensures !IsComb(modules, modules[k].q) {
        WiredQ(modules, readers, k);
        WiredAt(modules, readers, k);
        DffPorts(modules[k], |readers|);
        ClockedQ(old(signals)[modules[k].q], pre[modules[k].d]);
      }
      assert Clocked(modules, old(signals), pre, Currents(signals));
    }

    /** on_reset of module `k`. */
    method ResetModule(k: nat)
      requires Valid() && k < |modules|
      modifies `signals, `dirty
      ensures Valid() && |signals| == |old(signals)| && Apart(old(signals), signals, OutSet(modules[k]))
      ensures modules[k].Dff? ==>
          modules[k].q < |signals| && signals[modules[k].q] == Written(old(signals)[modules[k].q], modules[k].reset)
    {
      WiredAt(modules, readers, k);
      hide Wired, Queued, Follows, Effective, Written, Honest, OnlyQsStale, Clean;
      ghost var before := signals;
      if modules[k].Dff? {
        DffPorts(modules[k], |readers|);
        Write(modules[k].q, modules[k].reset);
        StillOnlyQs(modules, before, signals);
        EdgeKeeps(modules, readers, before, signals, k);
      } else {
        Fire(k);
        forall j: nat | j < |modules| && j != k ensures Follows(modules[j], signals) {
          WiredDrivers(modules, readers, j, k);
          StillFollows(modules[j], before, signals, OutSet(modules[k]));
        }
      }
    }

    /** reset: every flip-flop at its reset value and the blocks settled. */
    method Reset() returns (ok: bool)
      requires Valid()
      modifies `signals, `dirty, `notify, `inNotify
      ensures Valid() && |signals| == |old(signals)|
      ensures ok ==>
        && Settled(modules, Currents(signals))
        && forall k | 0 <= k < |modules| && modules[k].Dff? ::
             modules[k].q < |signals| &&
             signals[modules[k].q].current == if Takes(old(signals)[modules[k].q], modules[k].reset)
                 then modules[k].reset else old(signals)[modules[k].q].current
      ensures Shallow(modules, |signals|) ==> ok
    {
      hide Wired, Queued, Follows, Honest, Subscribed, Settled, OnlyQsStale, Written;
      var i := 0;
      while i < |modules|
        invariant i <= |modules| && Valid() && |signals| == |old(signals)|
        invariant forall k | 0 <= k < |modules| && modules[k].Dff? && modules[k].q < |signals| ::
          signals[modules[k].q] == if k < i then Written(old(signals)[modules[k].q], modules[k].reset)
              else old(signals)[modules[k].q]
      {
        ResetModule(i);
        forall k: nat | k < |modules| && k != i && modules[k].Dff? ensures modules[k].q !in OutSet(modules[i]) {
          WiredDrivers(modules, readers, k, i);
          DffOut(modules[k]);
        }
        i := i + 1;
      }
      forall k: nat | k < |modules| && modules[k].Dff?
        ensures modules[k].q < |signals| && !IsComb(modules, modules[k].q)
        ensures Effective(signals[modules[k].q]) ==
          if Takes(old(signals)[modules[k].q], modules[k].reset) then modules[k].reset
              else old(signals)[modules[k].q].current
      {
        WiredQ(modules, readers, k);
        WiredAt(modules, readers, k);
        DffPorts(modules[k], |readers|);
        NotTaken(old(signals)[modules[k].q], modules[k].reset);
      }
      ok := Propagate();
    }

    // ---- building the netlist ---------------------------------------------------------------

    method AddSignal() returns (s: nat)
      requires Valid()
      modifies `signals, `readers
      ensures Valid() && s == |old(signals)| && signals == old(signals) + [Signal(0, 0, false)]
          && readers == old(readers) + [[]]
    {
      s := |signals|;
      ghost var xs, rs := signals, readers;
      signals := signals + [Signal(0, 0, false)];
      readers := readers + [[]];
      MoreSignals(modules, rs, xs, dirty);
    }

    /** A flip-flop on a signal that nobody drives: the constructor forces the reset value on it. That
        notifies no block, so all is in order if and only if the blocks that read it already still
        follow their inputs; with no such block, or the reset value there before, they do. */
    method AddDff(d: nat, q: nat, reset: int)
      requires Valid() && d < |signals| && q < |signals| && Undriven(modules, {q})
      modifies `modules, `inNotify, `signals
      ensures modules == old(modules) + [Dff(d, q, reset)] && inNotify == old(inNotify) + [false]
      ensures signals == old(signals)[q := old(signals)[q].(current := reset)]
      ensures Valid() <==> forall k | k in readers[q] :: k < |modules| && Follows(modules[k], signals)
      ensures readers[q] == [] || old(signals)[q].current == reset ==> Valid()
    {
      hide Queued, Honest, Effective, Clean, OnlyQsStale, Follows;
      var m := Dff(d, q, reset);
      DffHonest(m, |readers|);
      MoreModules(modules, readers, m, readers);
      ForcedKeeps(modules, readers, signals, dirty, m);
      assert forall k | k in readers[q] :: k < |modules| by { ReadersKnown(modules, readers, q); }
      signals := signals[q := signals[q].(current := reset)];
      modules := modules + [m];
      inNotify := inNotify + [false];
      DffFollows(m, signals);
    }

    /** comb: a block with its complete sensitivity list, run once and settled. */
    method AddComb(m: Module) returns (ok: bool)
      requires Valid() && m.Comb? && Honest(m, |signals|) && Undriven(modules, OutSet(m))
      modifies `signals, `readers, `modules, `dirty, `notify, `inNotify
      ensures Valid() && |signals| == |old(signals)| && modules == old(modules) + [m]
      ensures ok ==> dirty == [] && Settled(modules, Currents(signals))
      ensures ok ==> forall s: nat | s < |signals| && !IsComb(modules, s) :: signals[s] == Committed(old(signals)[s])
      ensures Shallow(modules, |signals|) ==> ok
    {
      hide Queued, Follows, Honest, OnlyQsStale;
      MoreQs(modules, signals, m);
      ghost var rs := readers;
      readers := Connect(readers, m.ins, |modules|);
      MoreModules(modules, rs, m, readers);
      modules := modules + [m];
      inNotify := inNotify + [false];
      ghost var before := signals;
      Fire(|modules| - 1);
      forall j: nat | j + 1 < |modules| ensures Follows(modules[j], signals) {
        WiredDrivers(modules, readers, j, |modules| - 1);
        StillFollows(modules[j], before, signals, OutSet(m));
      }
      forall s: nat | s < |signals| && !IsComb(modules, s)
          ensures signals[s] == before[s] { NotDriven(modules, |modules| - 1, s); }
      ok := Propagate();
    }
  }

  lemma NotDriven(ms: seq<Module>, k: nat, s: nat)
    requires k < |ms| && ms[k].Comb? && !IsComb(ms, s)
    ensures s !in OutSet(ms[k])
  {
  }

  ghost predicate Undriven(ms: seq<Module>, outs: set<nat>) {
    forall k, o | 0 <= k < |ms| && o in outs :: o !in Outs(ms[k])
  }

  lemma MoreQs(ms: seq<Module>, xs: seq<Signal>, m: Module)
    requires OnlyQsStale(ms, xs)
    ensures OnlyQsStale(ms + [m], xs)
  {
    hide Clean;
    forall s: nat | s < |xs| && !Clean(xs[s]) ensures IsQ(ms + [m], s) {
      assert IsQ(ms, s);
      var k :| 0 <= k < |ms| && ms[k].Dff? && ms[k].q == s;
      assert (ms + [m])[k] == ms[k];
    }
  }

  lemma DffHonest(m: Module, n: nat)
    requires m.Dff? && m.d < n && m.q < n
    ensures Honest(m, n) && OutSet(m) == {m.q}
  {
  }

  lemma DffFollows(m: Module, xs: seq<Signal>)
    requires m.Dff?
    ensures Follows(m, xs)
  {
  }

  lemma ReadersKnown(ms: seq<Module>, readers: seq<seq<nat>>, q: nat)
    requires Wired(ms, readers) && q < |readers|
    ensures forall k | k in readers[q] :: k < |ms|
  {
    forall k | k in readers[q] ensures k < |ms| { assert Listens(ms, q, k); }
  }

  /** Forcing a signal that no block drives can only leave behind the blocks that read it. */
  lemma ForcedKeeps(ms: seq<Module>, readers: seq<seq<nat>>, xs: seq<Signal>, dirty: seq<nat>, m: Module)
    requires Wired(ms, readers) && |xs| == |readers| && Queued(xs, dirty) && OnlyQsStale(ms, xs) && m.Dff? && m.q < |xs|
    requires Undriven(ms, {m.q}) && forall k | 0 <= k < |ms| :: Follows(ms[k], xs)
    ensures var xs' := xs[m.q := xs[m.q].(current := m.reset)];
      && Queued(xs', dirty) && OnlyQsStale(ms + [m], xs')
      && forall k: nat | k < |ms| && (k !in readers[m.q] || xs[m.q].current == m.reset) :: Follows(ms[k], xs')
  {
    var xs' := xs[m.q := xs[m.q].(current := m.reset)];
    assert (ms + [m])[|ms|] == m;
    forall s: nat | s < |xs'| && !Clean(xs'[s]) ensures IsQ(ms + [m], s) {
      if s != m.q {
        assert IsQ(ms, s);
        var k :| 0 <= k < |ms| && ms[k].Dff? && ms[k].q == s;
        assert (ms + [m])[k] == ms[k];
      }
    }
    forall k: nat | k < |ms| && (k !in readers[m.q] || xs[m.q].current == m.reset) ensures Follows(ms[k], xs') {
      if ms[k].Comb? {
        ForcedFollows(ms, readers, xs, xs', k, m.q);
      }
    }
  }

  lemma ForcedFollows(ms: seq<Module>, readers: seq<seq<nat>>, xs: seq<Signal>, xs': seq<Signal>, k: nat, q: nat)
    requires Wired(ms, readers) && |xs| == |xs'| == |readers| && k < |ms| && ms[k].Comb? && Undriven(ms, {q})
        && q < |xs|
    requires (forall s: nat | s < |xs| && s != q :: xs'[s] == xs[s])
        && (k !in readers[q] || xs'[q].current == xs[q].current)
    requires Follows(ms[k], xs)
    ensures Follows(ms[k], xs')
  {
    hide Effective;
    WiredAt(ms, readers, k);
    var m := ms[k];
    assert k in readers[q] <==> Listens(ms, q, k);
    assert m.fn(Currents(xs)) == m.fn(Currents(xs'));
    HonestOuts(m, |readers|);
    forall i | 0 <= i < |Outs(m)| ensures Outs(m)[i] != q {
      assert Outs(m)[i] in Outs(m);
    }
  }

  lemma ClockedQ(x: Signal, v: int)
    ensures Effective(Written(Committed(x), v)) == if Takes(x, v) then v else x.current
  {
  }

  lemma NotTaken(x: Signal, v: int)
    ensures Effective(Written(x, v)) == if Takes(x, v) then v else x.current
  {
  }

  /** connect_reader on every signal of the sensitivity list. */
  function Connect(readers: seq<seq<nat>>, ins: set<nat>, k: nat): (r: seq<seq<nat>>)
    ensures |r| == |readers|
    ensures forall s | 0 <= s < |readers| :: r[s] == if s in ins then readers[s] + [k] else readers[s]
  {
    if readers == [] then []
    else
      var last := |readers| - 1;
      Connect(readers[..last], ins, k) + [if last in ins then readers[last] + [k] else readers[last]]
  }

  lemma MoreModules(ms: seq<Module>, readers: seq<seq<nat>>, m: Module, readers': seq<seq<nat>>)
    requires Wired(ms, readers) && Honest(m, |readers|) && Undriven(ms, OutSet(m)) && |readers'| == |readers|
    requires forall s | 0 <= s < |readers| ::
      readers'[s] == if m.Comb? && s in m.ins then readers[s] + [|ms|] else readers[s]
    ensures Wired(ms + [m], readers')
  {
    hide Honest, Subscribed;
    MoreDrivers(ms, m);
    MoreReaders(ms, readers, m, readers');
  }

  lemma MoreDrivers(ms: seq<Module>, m: Module)
    requires SingleDriver(ms) && Undriven(ms, OutSet(m))
    ensures SingleDriver(ms + [m])
  {
    forall o | o in Outs(m) ensures o in OutSet(m) {}
  }

  lemma MoreReaders(ms: seq<Module>, readers: seq<seq<nat>>, m: Module, readers': seq<seq<nat>>)
    requires Subscribed(ms, readers) && |readers'| == |readers|
    requires forall s | 0 <= s < |readers| ::
      readers'[s] == if m.Comb? && s in m.ins then readers[s] + [|ms|] else readers[s]
    ensures Subscribed(ms + [m], readers')
  {
    forall s: nat, k: nat | s < |readers'| ensures k in readers'[s] <==> Listens(ms + [m], s, k) {
      NewReader(readers[s], readers'[s], |ms|, m.Comb? && s in m.ins, k);
      assert k in readers[s] <==> Listens(ms, s, k);
    }
  }

  lemma NewReader(before: seq<nat>, after: seq<nat>, n: nat, added: bool, k: nat)
    requires after == if added then before + [n] else before
    ensures k in after <==> k in before || (added && k == n)
  {
  }

  lemma MoreSignals(ms: seq<Module>, readers: seq<seq<nat>>, xs: seq<Signal>, dirty: seq<nat>)
    requires Wired(ms, readers) && |xs| == |readers| && Queued(xs, dirty)
        && forall k | 0 <= k < |ms| :: Follows(ms[k], xs)
    ensures Wired(ms, readers + [[]]) && Queued(xs + [Signal(0, 0, false)], dirty)
    ensures forall k | 0 <= k < |ms| :: Follows(ms[k], xs + [Signal(0, 0, false)])
  {
    var xs' := xs + [Signal(0, 0, false)];
    forall k | 0 <= k < |ms| ensures Honest(ms[k], |readers| + 1) && Follows(ms[k], xs') {
      HonestWider(ms[k], |readers|, xs);
    }
  }

  lemma HonestWider(m: Module, n: nat, xs: seq<Signal>)
    requires Honest(m, n) && |xs| == n && Follows(m, xs)
    ensures Honest(m, n + 1) && Follows(m, xs + [Signal(0, 0, false)])
  {
    var xs' := xs + [Signal(0, 0, false)];
    if m.Comb? {
      assert m.fn(Currents(xs)) == m.fn(Currents(xs'));
    }
  }

  lemma DffOut(m: Module)
    requires m.Dff?
    ensures m.q in OutSet(m)
  {
    assert Outs(m)[0] == m.q;
  }

  lemma WiredQs(ms: seq<Module>, readers: seq<seq<nat>>, i: nat, j: nat)
    requires Wired(ms, readers) && i < |ms| && j < |ms| && i != j && ms[i].Dff? && ms[j].Dff?
    ensures ms[i].q != ms[j].q
  {
    QDistinct(ms, i, j);
  }

  lemma WiredQ(ms: seq<Module>, readers: seq<seq<nat>>, k: nat)
    requires Wired(ms, readers) && k < |ms| && ms[k].Dff?
    ensures !IsComb(ms, ms[k].q)
  {
    QNotComb(ms, k);
  }

  /** A block none of whose inputs changed still follows them. */
  lemma Unnotified(m: Module, xs: seq<Signal>, xs': seq<Signal>, n: nat)
    requires Honest(m, n) && |xs| == |xs'| == n && Follows(m, xs)
    requires forall s: nat | s < n :: Effective(xs'[s]) == Effective(xs[s])
    requires m.Comb? ==> forall s: nat | s < n && s in m.ins :: xs'[s].current == xs[s].current
    ensures Follows(m, xs')
  {
    if m.Comb? {
      assert m.fn(Currents(xs)) == m.fn(Currents(xs'));
    }
  }

  /** Is the signal the output of a flip-flop? */
  ghost predicate IsQ(ms: seq<Module>, s: nat) {
    exists k :: 0 <= k < |ms| && ms[k].Dff? && ms[k].q == s
  }

  /** One clock cycle from the signals `xs`: every flip-flop has its input's settled value from before
      the edge, but for a stale one whose input has just its stale value, which keeps its own; the other
      undriven signals are as they were, and the blocks have settled again. */
  ghost predicate Clocked(ms: seq<Module>, xs: seq<Signal>, pre: seq<int>, post: seq<int>) {
    && |post| == |pre| == |xs| && Settled(ms, pre) && Settled(ms, post)
    && (forall k | 0 <= k < |ms| && ms[k].Dff? :: ms[k].q < |pre| && ms[k].d < |pre| &&
         post[ms[k].q] == if Takes(xs[ms[k].q], pre[ms[k].d]) then pre[ms[k].d] else xs[ms[k].q].current)
    && forall s: nat | s < |pre| && !IsComb(ms, s) && !IsQ(ms, s) :: post[s] == pre[s]
  }

  /** Without combinational loops the cycle is a function of the state before it: the order
      in which modules run cannot show. */
  lemma ClockedUnique(ms: seq<Module>, readers: seq<seq<nat>>, rank: seq<nat>, xs: seq<Signal>, pre: seq<int>,
      post: seq<int>,
                      post': seq<int>)
    requires Wired(ms, readers) && Acyclic(ms, rank) && |rank| == |readers| == |pre|
    requires Clocked(ms, xs, pre, post) && Clocked(ms, xs, pre, post')
    ensures post == post'
  {
    forall u: nat | u < |pre| && !IsComb(ms, u) ensures post[u] == post'[u] {
      if IsQ(ms, u) {
        var k :| 0 <= k < |ms| && ms[k].Dff? && ms[k].q == u;
      }
    }
    forall s: nat | s < |pre| ensures post[s] == post'[s] {
      SettledUnique(ms, readers, rank, post, post', s);
    }
  }

  /** Flip-flops drive no signal that a block drives. */
  lemma QNotComb(ms: seq<Module>, k: nat)
    requires SingleDriver(ms) && k < |ms| && ms[k].Dff?
    ensures !IsComb(ms, ms[k].q)
  {
    assert ms[k].q in Outs(ms[k]) by { assert Outs(ms[k])[0] == ms[k].q; }
    forall j | 0 <= j < |ms| && ms[j].Comb? ensures ms[k].q !in ms[j].outs {
      assert j != k;
    }
  }

  lemma QDistinct(ms: seq<Module>, i: nat, j: nat)
    requires SingleDriver(ms) && i < |ms| && j < |ms| && i != j && ms[i].Dff? && ms[j].Dff?
    ensures ms[i].q != ms[j].q
  {
    assert Outs(ms[i])[0] == ms[i].q && Outs(ms[j])[0] == ms[j].q;
    assert ms[i].q in Outs(ms[i]) && ms[j].q in Outs(ms[j]);
  }

  lemma WiredDrivers(ms: seq<Module>, readers: seq<seq<nat>>, i: nat, j: nat)
    requires Wired(ms, readers) && i < |ms| && j < |ms| && i != j
    ensures OutSet(ms[i]) !! OutSet(ms[j])
  {
    DriversApart(ms, i, j);
  }

  lemma NothingPending(xs: seq<Signal>, dirty: seq<nat>)
    requires Queued(xs, dirty) && dirty == []
    ensures forall s: nat | s < |xs| :: xs[s].current == Effective(xs[s])
  {
  }

  /** With nothing pending every block's outputs are what its inputs call for. */
  lemma AllSettled(ms: seq<Module>, readers: seq<seq<nat>>, xs: seq<Signal>)
    requires Wired(ms, readers) && |readers| == |xs| && forall k | 0 <= k < |ms| :: Follows(ms[k], xs)
    requires forall s: nat | s < |xs| :: xs[s].current == Effective(xs[s])
    ensures Settled(ms, Currents(xs))
  {
    forall k | 0 <= k < |ms| && ms[k].Comb? ensures Agrees(ms[k], Currents(xs)) {
      assert Follows(ms[k], xs);
    }
  }

  lemma DffPorts(m: Module, n: nat)
    requires Honest(m, n) && m.Dff?
    ensures m.q < n && m.d < n && OutSet(m) == {m.q}
  {
    assert Outs(m)[0] in Outs(m);
  }

  lemma EdgeKeeps(ms: seq<Module>, readers: seq<seq<nat>>, xs: seq<Signal>, xs': seq<Signal>, k: nat)
    requires Wired(ms, readers) && k < |ms| && ms[k].Dff? && |xs| == |xs'| == |readers|
    requires Apart(xs, xs', OutSet(ms[k])) && forall j | 0 <= j < |ms| :: Follows(ms[j], xs)
    ensures forall j | 0 <= j < |ms| :: Follows(ms[j], xs')
  {
    forall j: nat | j < |ms| ensures Follows(ms[j], xs') {
      if j != k {
        DriversApart(ms, j, k);
        StillFollows(ms[j], xs, xs', OutSet(ms[k]));
      }
    }
  }

  // ---- a flip-flop that misses its input -----------------------------------------------------------

  /** A flip-flop with reset value 1 on a fresh signal, its input 0: after the first tick it is still 1. */
  method FirstTickMissed() returns (q: int)
    ensures q == 1
  {
    hide Sim.Valid, Settled, Shallow, IsComb;
    var sim := new Sim();
    var d := sim.AddSignal();
    var o := sim.AddSignal();
    sim.AddDff(d, o, 1);
    assert sim.modules == [Dff(d, o, 1)];
    NoBlocks(sim.modules, 2);
    var ok;
    ghost var pre;
    ok, pre := sim.Tick();
    q := sim.signals[o].current;
    assert sim.modules[0] == Dff(d, o, 1) && pre[d] == 0;
  }

  lemma BufferFacts(m: Module)
    requires m == Comb({1}, [2], Second)
    ensures Honest(m, 3) && Shallow([m], 3) && !IsComb([m], 1)
  {
    assert Outs(m) == [2] && m.outs[0] == 2;
    assert Ranks([m], [0, 0, 1], 3);
  }

  function Second(cur: seq<int>): seq<int> {
    if |cur| > 1 then [cur[1]] else [0]
  }

  lemma BufferSettled(m: Module, cur: seq<int>)
    requires m == Comb({1}, [2], Second) && Settled([m], cur) && |cur| == 3
    ensures cur[2] == cur[1]
  {
    assert [m][0] == m && Agrees(m, cur);
    assert m.fn(cur) == Second(cur) == [cur[1]] && m.outs[0] == 2;
  }

  /** A buffer built before the flip-flop that it reads, whose reset value is 1: the buffer stays 0. */
  method BufferMissed() returns (q: int, o: int)
    ensures q == 1 && o == 0
  {
    hide Sim.Valid, Settled, Shallow, IsComb, Honest;
    var sim := new Sim();
    var d := sim.AddSignal();
    var u := sim.AddSignal();
    var v := sim.AddSignal();
    var buffer := Comb({u}, [v], Second);
    BufferFacts(buffer);
    var ok := sim.AddComb(buffer);
    assert ok && !IsComb(sim.modules, u) by { assert sim.modules == [buffer]; }
    assert sim.modules == [buffer] && sim.signals[u] == Signal(0, 0, false);
    BufferSettled(buffer, Currents(sim.signals));
    sim.AddDff(d, u, 1);
    q, o := sim.signals[u].current, sim.signals[v].current;
  }

  /** A block that inverts its own output has no settled state: propagation gives up. */
  method Oscillator() returns (ok: bool)
    ensures !ok
  {
    hide Sim.Valid, Settled, Shallow, IsComb, Honest;
    var sim := new Sim();
    var s := sim.AddSignal();
    var inverter := Comb({s}, [s], Inverted);
    InverterFacts(inverter);
    ok := sim.AddComb(inverter);
    assert sim.modules == [inverter] && |sim.signals| == 1;
    NeverSettled(inverter, Currents(sim.signals));
  }

  function Inverted(cur: seq<int>): seq<int> {
    if |cur| > 0 then [1 - cur[0]] else [1]
  }

  lemma InverterFacts(m: Module)
    requires m == Comb({0}, [0], Inverted)
    ensures Honest(m, 1)
  {
    assert Outs(m) == [0];
  }

  lemma NeverSettled(m: Module, cur: seq<int>)
    requires m == Comb({0}, [0], Inverted) && |cur| == 1
    ensures !Settled([m], cur)
  {
    assert m.fn(cur) == Inverted(cur) == [1 - cur[0]] && m.outs[0] == 0;
    assert !Agrees(m, cur) && [m][0] == m;
  }

  lemma NoBlocks(ms: seq<Module>, n: nat)
    requires forall k | 0 <= k < |ms| :: ms[k].Dff?
    ensures Shallow(ms, n) && forall s :: !IsComb(ms, s)
  {
    var rank := seq(n, _ => 0);
    assert Ranks(ms, rank, n);
  }
}

/** Bounded delay properties `p |-> ##[lo:hi] q`, lowered to a chain of registers. */
module Windows {
  import opened Circuit
  import opened Decimal
  import opened Trail
  import opened Transition

  datatype Window = Window(lo: nat, hi: nat, ante: Sig, cons: Sig, isAssume: bool)

  // ---- register names ---------------------------------------------------------------------

  /** Register `k` of window `i`. */
  function WinName(i: nat, k: nat): Name {
    "__win" + (Digits(i) + "_" + Digits(k))
  }

  lemma WinNameUnique(i: nat, k: nat, j: nat, m: nat)
    requires WinName(i, k) == WinName(j, m)
    ensures i == j && k == m
  {
    var a, b, c, d := Digits(i), Digits(k), Digits(j), Digits(m);
    var x, y := a + "_" + b, c + "_" + d;
    assert WinName(i, k)[5..] == x && WinName(j, m)[5..] == y;
    assert x[|a|] == '_' && y[|c|] == '_';
    forall p | 0 <= p < |c| ensures y[p] != '_' { assert y[p] == c[p] && c[p] in c; }
    forall p | 0 <= p < |a| ensures x[p] != '_' { assert x[p] == a[p] && a[p] in a; }
    assert x[..|a|] == a && y[..|c|] == c && x[|a| + 1..] == b && y[|c| + 1..] == d;
    DigitsUnique(i, j);
    DigitsUnique(k, m);
  }

  // ---- what a window means --------------------------------------------------------------

  /** In cycle `t` an attempt is `k` cycles old and has not been discharged. */
  predicate Attempt(w: Window, tr: seq<Env>, t: nat, k: nat)
    requires t < |tr|
  {
    t >= k && Eval(w.ante, tr[t - k]) && forall u | t - k + w.lo <= u < t :: !Eval(w.cons, tr[u])
  }

  /** The antecedent held `hi` cycles ago and the consequent failed ever since age `lo`. */
  predicate Fails(w: Window, tr: seq<Env>, t: nat)
    requires t < |tr|
  {
    t >= w.hi && Eval(w.ante, tr[t - w.hi]) && forall u | t - w.hi + w.lo <= u <= t :: !Eval(w.cons, tr[u])
  }

  /** The next value of register `k`: the attempt one cycle younger, unless discharged now. */
  predicate ChainFn(w: Window, i: nat, k: nat, e: Env)
    requires k > 0
  {
    (if k == 1 then Eval(w.ante, e) else WinName(i, k - 1) in e) && (k - 1 >= w.lo ==> !Eval(w.cons, e))
  }

  ghost predicate Total(v: TS) {
    States(v) <= v.next.Keys && States(v) <= v.init.Keys
  }

  /** Register `k` of the window's chain is in place. */
  ghost predicate Register(v: TS, i: nat, w: Window, k: nat)
    requires k > 0
  {
    && WinName(i, k) in v.state && WinName(i, k) in v.next && WinName(i, k) in v.init && !v.init[WinName(i, k)]
    && forall e :: Eval(v.next[WinName(i, k)], e) == ChainFn(w, i, k, e)
  }

  ghost predicate Chained(v: TS, i: nat, w: Window) {
    forall k: nat | 0 < k <= w.hi :: Register(v, i, w, k)
  }

  /** The property or assumption the window becomes. */
  predicate ConFn(w: Window, i: nat, e: Env) {
    if w.hi == 0 then Eval(w.ante, e) ==> Eval(w.cons, e)
    else WinName(i, w.hi) in e ==> Eval(w.cons, e)
  }

  /** On every run register `k` holds exactly the undischarged attempts of age `k`. */
  lemma {:induction false} ChainHolds(v: TS, i: nat, w: Window, tr: seq<Env>, t: nat, k: nat)
    requires Total(v) && Chained(v, i, w) && Run(v, tr) && t < |tr| && 0 < k <= w.hi
    ensures WinName(i, k) in tr[t] <==> Attempt(w, tr, t, k)
    decreases t
  {
    var n := WinName(i, k);
    assert Register(v, i, w, k) && n in States(v);
    if t == 0 {
      assert n in tr[0] <==> n in tr[0] * States(v);
    } else {
      assert Steps(v, tr[t - 1], tr[t]);
      assert n in tr[t] <==> n in tr[t] * States(v);
      assert n in tr[t] <==> ChainFn(w, i, k, tr[t - 1]);
      if k > 1 {
        ChainHolds(v, i, w, tr, t - 1, k - 1);
      }
      AttemptAges(w, tr, t, k);
    }
  }

  lemma AttemptAges(w: Window, tr: seq<Env>, t: nat, k: nat)
    requires 0 < t < |tr| && 0 < k
    ensures Attempt(w, tr, t, k) <==> Attempt(w, tr, t - 1, k - 1) && (k - 1 >= w.lo ==> !Eval(w.cons, tr[t - 1]))
    ensures Attempt(w, tr, t - 1, 0) <==> Eval(w.ante, tr[t - 1])
  {
  }

  /** The monitor is exact: it flags cycle t just when the antecedent held at t-hi and the
      consequent failed at every age of the window. */
  lemma WindowExact(v: TS, i: nat, w: Window, tr: seq<Env>, t: nat)
    requires Total(v) && Chained(v, i, w) && Run(v, tr) && t < |tr| && w.lo <= w.hi
    ensures ConFn(w, i, tr[t]) <==> !Fails(w, tr, t)
  {
    if w.hi > 0 {
      ChainHolds(v, i, w, tr, t, w.hi);
      assert Fails(w, tr, t) <==> Attempt(w, tr, t, w.hi) && !Eval(w.cons, tr[t]);
    }
  }

  // ---- the lowering -----------------------------------------------------------------------

  /** The registers of windows are not the system's own names yet. */
  ghost predicate NoRegisters(v: TS, from: nat) {
    forall i: nat, k: nat | i >= from :: WinName(i, k) !in v.state
  }

  /** `v'` declares everything `v` does, alike. */
  ghost predicate Keeps(v: TS, v': TS) {
    && Total(v) && Total(v') && forall n | n in v.state ::
         n in v'.state && n in States(v) && n in States(v') && v'.next[n] == v.next[n] && v'.init[n] == v.init[n]
  }

  lemma KeepsChained(v: TS, v': TS, i: nat, w: Window)
    requires Keeps(v, v') && Chained(v, i, w)
    ensures Chained(v', i, w)
  {
    forall k: nat | 0 < k <= w.hi ensures Register(v', i, w, k) {
      assert Register(v, i, w, k);
    }
  }

  lemma BitKeeps(v: TS, n: Name, r: bool, x: Sig)
    requires Total(v) && n !in v.state
    ensures Keeps(v, WithBit(v, n, r, x))
  {
    forall m | m in v.state ensures m in States(v) && m in States(WithBit(v, n, r, x)) {}
  }

  lemma KeepsTrans(v: TS, v': TS, v'': TS)
    requires Keeps(v, v') && Keeps(v', v'')
    ensures Keeps(v, v'')
  {
  }

  /** The registers of window `i`, up to age `k`. */
  function Registers(i: nat, k: nat): seq<Name> {
    if k == 0 then [] else Registers(i, k - 1) + [WinName(i, k)]
  }

  /** The registers of the first `n` windows. */
  function AllRegisters(ws: seq<Window>, n: nat): seq<Name>
    requires n <= |ws|
  {
    if n == 0 then [] else AllRegisters(ws, n - 1) + Registers(n - 1, ws[n - 1].hi)
  }

  /** The source of register `k`. */
  method Source(w: Window, i: nat, k: nat) returns (x: Sig)
    requires 0 < k
    ensures forall e :: Eval(x, e) == ChainFn(w, i, k, e)
  {
    x := if k == 1 then w.ante else Leaf(WinName(i, k - 1));
    if k - 1 >= w.lo {
      x := AndTwo(x, NOT(w.cons));
    }
  }

  /** The chain of window `i`, register by register, and its constraint. */
  method Lower(L: TransitionSystem, i: nat, w: Window) returns (con: Sig)
    requires Total(L.Value()) && NoRegisters(L.Value(), i)
    modifies L`state, L`next, L`init
    ensures Keeps(old(L.Value()), L.Value()) && NoRegisters(L.Value(), i + 1) && Chained(L.Value(), i, w)
    ensures L.state == old(L.state) + Registers(i, w.hi)
    ensures forall e :: Eval(con, e) == ConFn(w, i, e)
  {
    hide WinName;
    if w.hi == 0 {
      con := OrTwo(NOT(w.ante), w.cons);
      return;
    }
    ghost var v0 := L.Value();
    var k := 1;
    while k <= w.hi
      invariant 1 <= k <= w.hi + 1 && Keeps(v0, L.Value()) && L.state == old(L.state) + Registers(i, k - 1)
      invariant forall m: nat | 0 < m < k :: Register(L.Value(), i, w, m)
      invariant Others(L.Value(), i, k)
    {
      ghost var v := L.Value();
      var x := Source(w, i, k);
      BitKeeps(v, WinName(i, k), false, x);
      OthersNext(v, i, k, WithBit(v, WinName(i, k), false, x));
      L.AddStateBit(WinName(i, k), false, x);
      KeepsTrans(v0, v, L.Value());
      RegisterAdded(v, L.Value(), i, w, k, x);
      k := k + 1;
    }
    OthersDone(L.Value(), i, k);
    con := OrTwo(NOT(Leaf(WinName(i, w.hi))), w.cons);
  }

  /** Of windows from `i` on, only registers of window `i` below `k` are declared. */
  ghost predicate Others(v: TS, i: nat, k: nat) {
    forall j: nat, m: nat | j > i || (j == i && m >= k) :: WinName(j, m) !in v.state
  }

  lemma OthersNext(v: TS, i: nat, k: nat, v': TS)
    requires Others(v, i, k) && v'.state == v.state + [WinName(i, k)]
    ensures Others(v', i, k + 1)
  {
    hide WinName;
    forall j: nat, m: nat | (j > i || (j == i && m >= k + 1)) ensures WinName(j, m) !in v'.state {
      if WinName(j, m) == WinName(i, k) { WinNameUnique(j, m, i, k); }
    }
  }

  lemma OthersDone(v: TS, i: nat, k: nat)
    requires Others(v, i, k)
    ensures NoRegisters(v, i + 1)
  {
  }

  lemma RegisterAdded(v: TS, v': TS, i: nat, w: Window, k: nat, x: Sig)
    requires k > 0 && Keeps(v, v') && v' == WithBit(v, WinName(i, k), false, x)
    requires forall m: nat | 0 < m < k :: Register(v, i, w, m)
    requires forall e :: Eval(x, e) == ChainFn(w, i, k, e)
    ensures forall m: nat | 0 < m < k + 1 :: Register(v', i, w, m)
  {
    hide WinName;
    forall m: nat | 0 < m < k ensures Register(v', i, w, m) {
      assert Register(v, i, w, m);
    }
    assert Register(v', i, w, k);
  }

  // ---- all the windows -----------------------------------------------------------------------

  /** No window of this kind, among the first `n`, fails in cycle `t`. */
  predicate NoneFails(ws: seq<Window>, n: nat, assumed: bool, tr: seq<Env>, t: nat)
    requires n <= |ws| && t < |tr|
  {
    forall i | 0 <= i < n && ws[i].isAssume == assumed :: !Fails(ws[i], tr, t)
  }

  predicate PropHolds(prop: Option<Sig>, e: Env) {
    prop.Some? ==> Eval(prop.value, e)
  }

  /** On every run the lowered property and assumptions say what the windows say. */
  ghost predicate Lowered(v: TS, ws: seq<Window>, n: nat, prop0: Option<Sig>, prop: Option<Sig>, assm0: seq<Sig>)
    requires n <= |ws| && Total(v)
  {
    forall tr, t: nat | Run(v, tr) && t < |tr| ::
      && (PropHolds(prop, tr[t]) <==> PropHolds(prop0, tr[t]) && NoneFails(ws, n, false, tr, t))
      && (Every(v.assumptions, tr[t]) <==> Every(assm0, tr[t]) && NoneFails(ws, n, true, tr, t))
  }

  /** What the first `n` windows became. */
  ghost predicate Constraints(ws: seq<Window>, n: nat, prop0: Option<Sig>, prop: Option<Sig>, assm0: seq<Sig>,
      assm: seq<Sig>)
    requires n <= |ws|
  {
    forall e ::
      && (PropHolds(prop, e) <==> PropHolds(prop0, e) && forall i | 0 <= i < n && !ws[i].isAssume :: ConFn(ws[i], i, e))
      && (Every(assm, e) <==> Every(assm0, e) && forall i | 0 <= i < n && ws[i].isAssume :: ConFn(ws[i], i, e))
  }

  /** _desugar_windows. */
  method Desugar(L: TransitionSystem, ws: seq<Window>, prop0: Option<Sig>) returns (prop: Option<Sig>)
    requires Total(L.Value()) && NoRegisters(L.Value(), 0) && forall i | 0 <= i < |ws| :: ws[i].lo <= ws[i].hi
    modifies L`state, L`next, L`init, L`assumptions
    ensures Keeps(old(L.Value()), L.Value()) && L.state == old(L.state) + AllRegisters(ws, |ws|)
    ensures L.inputs == old(L.inputs) && L.bad == old(L.bad) && L.liveness == old(L.liveness)
    ensures Lowered(L.Value(), ws, |ws|, prop0, prop, old(L.assumptions))
  {
    hide WinName, ConFn, Chained;
    prop := prop0;
    ghost var v0 := L.Value();
    var n := 0;
    while n < |ws|
      invariant n <= |ws| && Keeps(v0, L.Value()) && NoRegisters(L.Value(), n)
      invariant L.state == v0.state + AllRegisters(ws, n)
      invariant forall i | 0 <= i < n :: Chained(L.Value(), i, ws[i])
      invariant Constraints(ws, n, prop0, prop, v0.assumptions, L.assumptions)
    {
      ghost var v, p := L.Value(), prop;
      var con := Lower(L, n, ws[n]);
      KeepsTrans(v0, v, L.Value());
      forall i | 0 <= i < n ensures Chained(L.Value(), i, ws[i]) { KeepsChained(v, L.Value(), i, ws[i]); }
      ghost var u := L.Value();
      if ws[n].isAssume {
        L.assumptions := L.assumptions + [con];
      } else if prop.None? {
        prop := Some(con);
      } else {
        var both := AndTwo(prop.value, con);
        prop := Some(both);
      }
      ConstraintAdded(ws, n, prop0, p, prop, v0.assumptions, v.assumptions, L.assumptions, con);
      Relisted(v0, u, L.Value(), ws, n);
      n := n + 1;
    }
    AllLowered(L.Value(), ws, prop0, prop, v0.assumptions);
  }

  /** Only the assumptions differ. */
  lemma Relisted(v0: TS, u: TS, v: TS, ws: seq<Window>, n: nat)
    requires n < |ws| && Keeps(v0, u) && NoRegisters(u, n + 1) && forall i | 0 <= i <= n :: Chained(u, i, ws[i])
    requires v.state == u.state && v.next == u.next && v.init == u.init
    ensures Keeps(v0, v) && NoRegisters(v, n + 1) && forall i | 0 <= i <= n :: Chained(v, i, ws[i])
  {
    hide WinName, ChainFn;
    assert forall n :: n in States(u) <==> n in States(v);
    forall i, k: nat | 0 <= i <= n && 0 < k <= ws[i].hi ensures Register(v, i, ws[i], k) {
      assert Register(u, i, ws[i], k);
    }
  }

  lemma ConstraintAdded(ws: seq<Window>, n: nat, prop0: Option<Sig>, prop: Option<Sig>, prop': Option<Sig>,
                        assm0: seq<Sig>, assm: seq<Sig>, assm': seq<Sig>, con: Sig)
    requires n < |ws| && Constraints(ws, n, prop0, prop, assm0, assm) && forall e :: Eval(con, e) == ConFn(ws[n], n, e)
    requires if ws[n].isAssume then assm' == assm + [con] && prop' == prop
      else assm' == assm && forall e :: PropHolds(prop', e) <==> PropHolds(prop, e) && Eval(con, e)
    ensures Constraints(ws, n + 1, prop0, prop', assm0, assm')
  {
    hide ConFn;
    EveryAppend(assm, con);
  }

  lemma AllLowered(v: TS, ws: seq<Window>, prop0: Option<Sig>, prop: Option<Sig>, assm0: seq<Sig>)
    requires Total(v) && (forall i | 0 <= i < |ws| :: Chained(v, i, ws[i]) && ws[i].lo <= ws[i].hi)
    requires Constraints(ws, |ws|, prop0, prop, assm0, v.assumptions)
    ensures Lowered(v, ws, |ws|, prop0, prop, assm0)
  {
    hide ConFn, Chained, Fails;
    forall tr, t: nat, i | Run(v, tr) && t < |tr| && 0 <= i < |ws|
        ensures ConFn(ws[i], i, tr[t]) <==> !Fails(ws[i], tr, t) {
      WindowExact(v, i, ws[i], tr, t);
    }
  }
}

/** Three-valued simulation of a signal and its cone of influence, by the explicit
    stacks the engines use, against the recursive definitions. */
module Ternary {
  import opened Circuit

  /** 0, 1 or X. */
  datatype Tern = Zero | One | X

  type TEnv = map<Name, Tern>

  function Of(b: bool): Tern {
    if b then One else Zero
  }

  function Look(env: TEnv, n: Name): Tern {
    if n in env then env[n] else X
  }

  /** One gate, Kleene's strong rules, with agreeing branches rescuing an unknown select. */
  function GateTern(s: Sig, vals: seq<Tern>): Tern
    requires |vals| == |Args(s)|
  {
    match s
    case Const(b) => Of(b)
    case Leaf(_) => X
    case Not(_) => if vals[0] == X then X else Of(vals[0] == Zero)
    case And(_) => if Zero in vals then Zero else if X in vals then X else One
    case Or(_) => if One in vals then One else if X in vals then X else Zero
    case Xor(_, _) => if vals[0] == X || vals[1] == X then X else Of(vals[0] != vals[1])
    case Ite(_, _, _) =>
      if vals[0] == One then vals[1]
      else if vals[0] == Zero then vals[2]
      else if vals[1] == vals[2] then vals[1] else X
  }

  /** The value of a signal over 0, 1, X. */
  function Kleene(s: Sig, env: TEnv): Tern
    decreases s
  {
    if s.Leaf? then Look(env, s.name)
    else GateTern(s, seq(|Args(s)|, k requires 0 <= k < |Args(s)| => Kleene(Args(s)[k], env)))
  }

  function ArgVals(s: Sig, env: TEnv): (vals: seq<Tern>)
    ensures |vals| == |Args(s)| && forall k: nat | k < |Args(s)| :: vals[k] == Kleene(Args(s)[k], env)
  {
    seq(|Args(s)|, k requires 0 <= k < |Args(s)| => Kleene(Args(s)[k], env))
  }

  lemma KleeneGate(s: Sig, env: TEnv)
    ensures !s.Leaf? ==> Kleene(s, env) == GateTern(s, ArgVals(s, env))
  {
    if !s.Leaf? {
      assert ArgVals(s, env) == seq(|Args(s)|, k requires 0 <= k < |Args(s)| => Kleene(Args(s)[k], env));
    }
  }

  /** `b` says all that `a` says, and perhaps more. */
  predicate Sharper(a: Tern, b: Tern) {
    a == X || a == b
  }

  ghost predicate SharperEnv(e: TEnv, e': TEnv) {
    forall n :: Sharper(Look(e, n), Look(e', n))
  }

  /** Monotone in information: knowing more inputs never flips a definite answer. */
  lemma {:induction false} Monotone(s: Sig, e: TEnv, e': TEnv)
    requires SharperEnv(e, e')
    ensures Sharper(Kleene(s, e), Kleene(s, e'))
    decreases s
  {
    forall k: nat | k < |Args(s)| ensures Sharper(Kleene(Args(s)[k], e), Kleene(Args(s)[k], e')) {
      Monotone(Args(s)[k], e, e');
    }
    if !s.Leaf? {
      KleeneGate(s, e);
      KleeneGate(s, e');
      GateMonotone(s, ArgVals(s, e), ArgVals(s, e'));
    }
  }

  lemma GateMonotone(s: Sig, vs: seq<Tern>, vs': seq<Tern>)
    requires !s.Leaf? && |vs| == |vs'| == |Args(s)|
    requires forall k | 0 <= k < |vs| :: Sharper(vs[k], vs'[k])
    ensures Sharper(GateTern(s, vs), GateTern(s, vs'))
  {
    forall v | v in vs' && v != X && v !in vs ensures X in vs {
      var k :| 0 <= k < |vs'| && vs'[k] == v;
      assert vs[k] in vs;
    }
    forall v | v in vs && v != X ensures v in vs' {
      var k :| 0 <= k < |vs| && vs[k] == v;
      assert vs'[k] in vs';
    }
    if X !in vs {
      assert vs == vs' by {
        forall k | 0 <= k < |vs| ensures vs[k] == vs'[k] { assert vs[k] in vs; }
      }
    }
  }

  /** The valuation `e` as a three-valued one over the names `ns`. */
  function Exact(e: Env, ns: set<Name>): TEnv {
    map n | n in ns :: Of(n in e)
  }

  /** With every input known the answer is the two-valued one. */
  lemma {:induction false} ExactKleene(s: Sig, e: Env, ns: set<Name>)
    requires Support(s) <= ns
    ensures Kleene(s, Exact(e, ns)) == Of(Eval(s, e))
    decreases s
  {
    var t := Exact(e, ns);
    forall k: nat | k < |Args(s)| ensures Kleene(Args(s)[k], t) == Of(Eval(Args(s)[k], e)) {
      SupportArg(s, k);
      ExactKleene(Args(s)[k], e, ns);
    }
    if s.Leaf? {
      assert s.name in ns;
    } else {
      KleeneGate(s, t);
      GateExact(s, ArgVals(s, t), e);
    }
  }

  lemma GateExact(s: Sig, vs: seq<Tern>, e: Env)
    requires !s.Leaf? && |vs| == |Args(s)|
    requires forall k: nat | k < |vs| :: vs[k] == Of(Eval(Args(s)[k], e))
    ensures GateTern(s, vs) == Of(Eval(s, e))
  {
    match s
    case And(xs) =>
      if Eval(s, e) {
        assert forall k: nat | k < |vs| :: vs[k] == One;
      } else {
        var k :| 0 <= k < |xs| && !Eval(xs[k], e);
        assert vs[k] == Zero && vs[k] in vs;
      }
    case Or(xs) =>
      if Eval(s, e) {
        var k :| 0 <= k < |xs| && Eval(xs[k], e);
        assert vs[k] == One && vs[k] in vs;
      } else {
        assert forall k: nat | k < |vs| :: vs[k] == Zero;
      }
    case Not(a) => assert vs[0] == Of(Eval(a, e));
    case Xor(a, b) => assert vs[0] == Of(Eval(a, e)) && vs[1] == Of(Eval(b, e));
    case Ite(c, t, f) => assert vs[0] == Of(Eval(c, e)) && vs[1] == Of(Eval(t, e)) && vs[2] == Of(Eval(f, e));
    case Const(_) =>
  }

  /** A definite answer under some X's is the answer of every completion. */
  lemma Definite(s: Sig, env: TEnv, e: Env, b: bool)
    requires Kleene(s, env) == Of(b)
    requires forall n | n in env && env[n] != X :: env[n] == Of(n in e)
    ensures Eval(s, e) == b
  {
    var ns := Support(s) + env.Keys;
    Monotone(s, env, Exact(e, ns));
    ExactKleene(s, e, ns);
  }

  // ---- the loops ------------------------------------------------------------

  /** The signal and everything below it. */
  ghost function Subs(s: Sig): set<Sig>
    decreases s
  {
    {s} + set k, x | 0 <= k < |Args(s)| && x in Subs(Args(s)[k]) :: x
  }

  lemma ArgSmaller(s: Sig, a: Sig)
    requires a in Args(s)
    ensures (s decreases to a)
  {
    match s
    case And(xs) => assert a in xs;
    case Or(xs) => assert a in xs;
    case _ =>
  }

  ghost function Below(s: Sig): (xs: set<Sig>)
    ensures s in xs && xs == Subs(s)
  {
    Subs(s)
  }

  lemma {:induction false} SubsClosed(s: Sig, x: Sig)
    requires x in Subs(s)
    ensures Subs(x) <= Subs(s)
    decreases s
  {
    if x != s {
      var k :| 0 <= k < |Args(s)| && x in Subs(Args(s)[k]);
      SubsClosed(Args(s)[k], x);
      forall y | y in Subs(x) ensures y in Subs(s) {
        assert 0 <= k < |Args(s)| && y in Subs(Args(s)[k]);
      }
    }
  }

  lemma SubsArgs(s: Sig, x: Sig)
    requires x in Subs(s)
    ensures forall k | 0 <= k < |Args(x)| :: Args(x)[k] in Subs(s)
  {
    SubsClosed(s, x);
    forall k | 0 <= k < |Args(x)| ensures Args(x)[k] in Subs(s) {
      assert Args(x)[k] in Subs(Args(x)[k]);
      assert Args(x)[k] in Subs(x);
    }
  }

  ghost predicate MemoRight(memo: map<Sig, Tern>, env: TEnv) {
    forall x | x in memo :: memo[x] == Kleene(x, env)
  }

  /** The arguments of `s` not yet in the memo, in order. */
  method Missing(s: Sig, memo: map<Sig, Tern>) returns (missing: seq<Sig>)
    ensures forall x :: x in missing <==> x in Args(s) && x !in memo
  {
    missing := [];
    var args := Args(s);
    var i := 0;
    while i < |args|
      invariant i <= |args| && forall x :: x in missing <==> x in args[..i] && x !in memo
    {
      assert args[..i + 1] == args[..i] + [args[i]];
      if args[i] !in memo {
        missing := missing + [args[i]];
      }
      i := i + 1;
    }
    assert args[..i] == args;
  }

  /** The value of a node whose arguments are in the memo. */
  function NodeTern(x: Sig, env: TEnv, memo: map<Sig, Tern>): (v: Tern)
    requires MemoRight(memo, env) && forall y | y in Args(x) :: y in memo
    ensures v == Kleene(x, env)
  {
    KleeneGate(x, env);
    assert Values(x, memo) == ArgVals(x, env) by {
      assert forall k: nat | k < |Args(x)| :: Args(x)[k] in Args(x);
    }
    if x.Leaf? then Look(env, x.name) else GateTern(x, Values(x, memo))
  }

  /** ternary_eval: iterative post-order with a memo that calls under the same
      environment may share. */
  method TernaryEval(s: Sig, env: TEnv, memo0: map<Sig, Tern>) returns (r: Tern, memo: map<Sig, Tern>)
    requires MemoRight(memo0, env) && Support(s) <= env.Keys
    ensures r == Kleene(s, env) && MemoRight(memo, env)
  {
    hide Kleene, GateTern, Subs;
    memo := memo0;
    var stack := [s];
    ghost var all := Below(s);
    while stack != []
      invariant MemoRight(memo, env)
      invariant forall x | x in stack :: x in all
      invariant s in memo || s in stack
      decreases all - memo.Keys,
        if stack != [] && stack[|stack| - 1] in memo then |stack| else 0,
        if stack != [] then stack[|stack| - 1] else TRUE
    {
      var x := stack[|stack| - 1];
      var rest := stack[..|stack| - 1];
      assert stack == rest + [x];
      if x in memo {
        stack := rest;
      } else {
        SubsArgs(s, x);
        var missing := Missing(x, memo);
        if missing != [] {
          var y := missing[|missing| - 1];
          assert y in missing;
          ArgSmaller(x, y);
          stack := stack + missing;
          assert stack[|stack| - 1] == y;
        } else {
          assert x in all - memo.Keys;
          memo := memo[x := NodeTern(x, env, memo)];
          stack := rest;
        }
      }
    }
    r := memo[s];
  }

  function Values(s: Sig, memo: map<Sig, Tern>): (vals: seq<Tern>)
    requires forall x | x in Args(s) :: x in memo
    ensures |vals| == |Args(s)| && forall k | 0 <= k < |vals| :: vals[k] == memo[Args(s)[k]]
  {
    seq(|Args(s)|, k requires 0 <= k < |Args(s)| => memo[Args(s)[k]])
  }

  /** support: the names read, by a worklist over the shared structure. */
  method SupportOf(s: Sig) returns (out: set<Name>)
    ensures out == Support(s)
  {
    hide Subs, Support;
    var seen: set<Sig> := {};
    out := {};
    var stack := [s];
    ghost var all := Below(s);
    while stack != []
      invariant s in seen || s in stack
      invariant forall x | x in stack || x in seen :: x in all
      invariant forall x, k | x in seen && 0 <= k < |Args(x)| :: Args(x)[k] in seen || Args(x)[k] in stack
      invariant forall n :: n in out <==> Leaf(n) in seen
      decreases all - seen, |stack|
    {
      var x := stack[|stack| - 1];
      var rest := stack[..|stack| - 1];
      assert stack == rest + [x];
      stack := rest;
      if x !in seen {
        seen := seen + {x};
        if x.Leaf? {
          out := out + {x.name};
        } else {
          SubsArgs(s, x);
          stack := stack + Args(x);
        }
      }
    }
    AllSeen(s, seen);
    LeavesRead(s);
    assert forall n :: n in Support(s) <==> Leaf(n) in all;
  }

  lemma {:induction false} AllSeen(s: Sig, seen: set<Sig>)
    requires s in seen && forall x, k | x in seen && 0 <= k < |Args(x)| :: Args(x)[k] in seen
    ensures Subs(s) <= seen
    decreases s
  {
    forall x | x in Subs(s) ensures x in seen {
      if x != s {
        var k :| 0 <= k < |Args(s)| && x in Subs(Args(s)[k]);
        AllSeen(Args(s)[k], seen);
      }
    }
  }

  lemma {:induction false} LeavesRead(s: Sig)
    ensures forall n :: n in Support(s) <==> Leaf(n) in Subs(s)
    decreases s
  {
    forall k | 0 <= k < |Args(s)|
      ensures forall n :: n in Support(Args(s)[k]) <==> Leaf(n) in Subs(Args(s)[k])
    {
      LeavesRead(Args(s)[k]);
    }
    forall n | Leaf(n) in Subs(s) ensures n in Support(s) {
      if s != Leaf(n) {
        var k :| 0 <= k < |Args(s)| && Leaf(n) in Subs(Args(s)[k]);
        assert n in Support(Args(s)[k]);
      }
    }
    forall n | n in Support(s) ensures Leaf(n) in Subs(s) {
      if !s.Leaf? {
        var k :| 0 <= k < |Args(s)| && n in Support(Args(s)[k]);
        assert Leaf(n) in Subs(Args(s)[k]);
      }
    }
  }
}

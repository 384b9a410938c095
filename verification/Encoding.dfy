/** Tseitin encoding: gates become clauses over fresh variables. Every valuation of
    the old variables still extends to one of the new formula, and in each such
    valuation the returned literal has the signal's value. */
module Encoding {
  import opened Sat
  import opened Circuit
  import opened Cdcl

  /** The valuation of the names that a model gives through their literals. */
  function EnvOf(m: Model, env: map<Name, int>): Env {
    set n | n in env && HoldsLit(m, env[n])
  }

  ghost predicate EnvOk(n: nat, env: map<Name, int>) {
    forall x | x in env :: LitOk(n, env[x])
  }

  /** In every valuation of the formula the literal equals the signal. */
  ghost predicate Encodes(f: seq<seq<int>>, env: map<Name, int>, sig: Sig, lit: int) {
    forall m: Model | HoldsAll(m, f) :: HoldsLit(m, lit) <==> Eval(sig, EnvOf(m, env))
  }

  ghost predicate MemoOk(f: seq<seq<int>>, n: nat, env: map<Name, int>, memo: map<Sig, int>) {
    forall x | x in memo :: LitOk(n, memo[x]) && Encodes(f, env, x, memo[x])
  }

  /** The constant-true literal, once made, is true. */
  ghost predicate TrueOk(f: seq<seq<int>>, n: nat, t: int) {
    t != 0 ==> LitOk(n, t) && forall m: Model | HoldsAll(m, f) :: HoldsLit(m, t)
  }

  /** A conservative extension: clauses were only added, and they cut off no
      valuation of the variables there were. */
  ghost predicate Grows(f: seq<seq<int>>, n: nat, f': seq<seq<int>>, n': nat) {
    && n <= n' && f <= f'
    && forall m: Model | HoldsAll(m, f) :: Extendable(m, n, f')
  }

  ghost predicate Extendable(m: Model, n: nat, f': seq<seq<int>>) {
    exists m': Model :: HoldsAll(m', f') && Agree(n, m, m')
  }

  lemma PrefixHolds(m: Model, f: seq<seq<int>>, f': seq<seq<int>>)
    requires f <= f' && HoldsAll(m, f')
    ensures HoldsAll(m, f)
  {
    forall i | 0 <= i < |f| ensures HoldsClause(m, f[i]) { assert f[i] == f'[i]; }
  }

  lemma GrowsRefl(f: seq<seq<int>>, n: nat)
    ensures Grows(f, n, f, n)
  {
    forall m: Model | HoldsAll(m, f) ensures Extendable(m, n, f) {
      assert Agree(n, m, m);
    }
  }

  lemma GrowsTrans(f: seq<seq<int>>, n: nat, f': seq<seq<int>>, n': nat, f'': seq<seq<int>>, n'': nat)
    requires Grows(f, n, f', n') && Grows(f', n', f'', n'')
    ensures Grows(f, n, f'', n'')
  {
    forall m: Model | HoldsAll(m, f) ensures Extendable(m, n, f'') {
      assert Extendable(m, n, f');
      var m' :| HoldsAll(m', f') && Agree(n, m, m');
      assert Extendable(m', n', f'');
      var m'' :| HoldsAll(m'', f'') && Agree(n', m', m'');
      assert Agree(n, m, m'');
    }
  }

  lemma EncodesLater(f: seq<seq<int>>, f': seq<seq<int>>, env: map<Name, int>, sig: Sig, lit: int)
    requires Encodes(f, env, sig, lit) && f <= f'
    ensures Encodes(f', env, sig, lit)
  {
    forall m: Model | HoldsAll(m, f') ensures HoldsAll(m, f) { PrefixHolds(m, f, f'); }
  }

  lemma MemoLater(f: seq<seq<int>>, n: nat, f': seq<seq<int>>, n': nat, env: map<Name, int>, memo: map<Sig, int>)
    requires MemoOk(f, n, env, memo) && f <= f' && n <= n'
    ensures MemoOk(f', n', env, memo)
  {
    forall x | x in memo ensures LitOk(n', memo[x]) && Encodes(f', env, x, memo[x]) {
      EncodesLater(f, f', env, x, memo[x]);
    }
  }

  lemma TrueLater(f: seq<seq<int>>, n: nat, f': seq<seq<int>>, n': nat, t: int)
    requires TrueOk(f, n, t) && f <= f' && n <= n'
    ensures TrueOk(f', n', t)
  {
    forall m: Model | HoldsAll(m, f') ensures HoldsAll(m, f) { PrefixHolds(m, f, f'); }
  }

  /** Models that agree on the formula's variables read the names alike. */
  lemma AgreeEnv(n: nat, m: Model, m': Model, env: map<Name, int>)
    requires Agree(n, m, m') && EnvOk(n, env)
    ensures EnvOf(m, env) == EnvOf(m', env)
  {
    forall x | x in env ensures HoldsLit(m, env[x]) <==> HoldsLit(m', env[x]) {
      assert LitOk(n, env[x]);
    }
  }

  // ---- gates ----------------------------------------------------------------

  /** A gate's value from its arguments' values. */
  predicate GateVal(s: Sig, vals: seq<bool>)
    requires |vals| == |Args(s)|
  {
    match s
    case Const(b) => b
    case Leaf(_) => false
    case Not(_) => !vals[0]
    case And(_) => forall k | 0 <= k < |vals| :: vals[k]
    case Or(_) => exists k | 0 <= k < |vals| :: vals[k]
    case Xor(_, _) => vals[0] != vals[1]
    case Ite(_, _, _) => if vals[0] then vals[1] else vals[2]
  }

  lemma GateEval(s: Sig, env: Env, vals: seq<bool>)
    requires !s.Leaf? && |vals| == |Args(s)|
    requires forall k | 0 <= k < |vals| :: vals[k] == Eval(Args(s)[k], env)
    ensures Eval(s, env) == GateVal(s, vals)
  {
    match s
    case Const(_) =>
    case Not(a) => assert vals[0] == Eval(Args(s)[0], env);
    case And(xs) => assert forall k | 0 <= k < |xs| :: vals[k] == Eval(xs[k], env);
    case Or(xs) => assert forall k | 0 <= k < |xs| :: vals[k] == Eval(xs[k], env);
    case Xor(a, b) => assert vals[0] == Eval(a, env) && vals[1] == Eval(b, env);
    case Ite(c, t, f) => assert vals[0] == Eval(c, env) && vals[1] == Eval(t, env) && vals[2] == Eval(f, env);
  }

  predicate Gate(s: Sig) {
    s.And? || s.Or? || s.Xor? || s.Ite?
  }

  function Negated(ls: seq<int>): seq<int> {
    seq(|ls|, k requires 0 <= k < |ls| => -ls[k])
  }

  function Pairs(y: int, ls: seq<int>, sign: int): seq<seq<int>> {
    seq(|ls|, k requires 0 <= k < |ls| => [y, sign * ls[k]])
  }

  /** The defining clauses of gate variable `y`. */
  function GateClauses(s: Sig, y: int, ls: seq<int>): seq<seq<int>>
    requires Gate(s) && |ls| == |Args(s)|
  {
    match s
    case And(_) => Pairs(-y, ls, 1) + [[y] + Negated(ls)]
    case Or(_) => [[-y] + ls] + Pairs(y, ls, -1)
    case Xor(_, _) =>
      var a, b := ls[0], ls[1];
      [[-y, -a, -b], [-y, a, b], [y, -a, b], [y, a, -b]]
    case Ite(_, _, _) =>
      var c, t, e := ls[0], ls[1], ls[2];
      [[-c, -t, y], [-c, t, -y], [c, -e, y], [c, e, -y]]
  }

  function Vals(m: Model, ls: seq<int>): (vals: seq<bool>)
    ensures |vals| == |ls|
  {
    seq(|ls|, k requires 0 <= k < |ls| => HoldsLit(m, ls[k]))
  }

  /** The clauses say exactly that `y` is the gate's value. */
  lemma GateMeans(m: Model, s: Sig, y: int, ls: seq<int>)
    requires Gate(s) && |ls| == |Args(s)| && y != 0 && forall k | 0 <= k < |ls| :: ls[k] != 0
    ensures HoldsAll(m, GateClauses(s, y, ls)) <==> (HoldsLit(m, y) <==> GateVal(s, Vals(m, ls)))
  {
    hide HoldsAll, HoldsLit;
    assert forall k | 0 <= k < |ls| :: Vals(m, ls)[k] == HoldsLit(m, ls[k]);
    match s
    case And(_) =>
      AndMeans(m, y, ls);
      assert GateVal(s, Vals(m, ls)) <==> forall k | 0 <= k < |ls| :: Vals(m, ls)[k];
    case Or(_) =>
      OrMeans(m, y, ls);
      assert GateVal(s, Vals(m, ls)) <==> exists k | 0 <= k < |ls| :: Vals(m, ls)[k];
    case Xor(_, _) => XorMeans(m, y, ls[0], ls[1]);
    case Ite(_, _, _) => IteMeans(m, y, ls[0], ls[1], ls[2]);
  }

  /** The long clause of an AND gate. */
  lemma LongClause(m: Model, y: int, ls: seq<int>)
    requires y != 0 && forall k | 0 <= k < |ls| :: ls[k] != 0
    ensures HoldsClause(m, [y] + Negated(ls)) <==> HoldsLit(m, y) || exists k | 0 <= k < |ls| :: !HoldsLit(m, ls[k])
  {
    var big := [y] + Negated(ls);
    forall k | 0 <= k < |ls| ensures !HoldsLit(m, ls[k]) ==> HoldsClause(m, big) {
      assert big[k + 1] == -ls[k] && big[k + 1] in big;
    }
    assert HoldsLit(m, y) ==> HoldsClause(m, big) by { assert big[0] in big; }
    if HoldsClause(m, big) && !HoldsLit(m, y) {
      var l :| l in big && HoldsLit(m, l);
      var k :| 0 <= k < |big| && big[k] == l;
      assert l == -ls[k - 1];
    }
  }

  lemma AndMeans(m: Model, y: int, ls: seq<int>)
    requires y != 0 && forall k | 0 <= k < |ls| :: ls[k] != 0
    ensures HoldsAll(m, Pairs(-y, ls, 1) + [[y] + Negated(ls)]) <==>
      (HoldsLit(m, y) <==> forall k | 0 <= k < |ls| :: HoldsLit(m, ls[k]))
  {
    hide HoldsClause, Negated;
    HoldsAllAppend(m, Pairs(-y, ls, 1), [y] + Negated(ls));
    LongClause(m, y, ls);
    var pairs := Pairs(-y, ls, 1);
    forall k | 0 <= k < |ls| ensures HoldsClause(m, pairs[k]) <==> (HoldsLit(m, y) ==> HoldsLit(m, ls[k])) {
      Two(m, -y, ls[k]);
      assert pairs[k] == [-y, ls[k]];
    }
  }

  lemma HoldsAllCons(m: Model, c: seq<int>, f: seq<seq<int>>)
    ensures HoldsAll(m, [c] + f) <==> HoldsClause(m, c) && HoldsAll(m, f)
  {
    var g := [c] + f;
    assert g[0] == c;
    assert forall i | 0 <= i < |f| :: g[i + 1] == f[i];
    if HoldsClause(m, c) && HoldsAll(m, f) {
      forall i | 0 <= i < |g| ensures HoldsClause(m, g[i]) {
        if i > 0 { assert g[i] == f[i - 1]; }
      }
    }
  }

  lemma OrMeans(m: Model, y: int, ls: seq<int>)
    requires y != 0 && forall k | 0 <= k < |ls| :: ls[k] != 0
    ensures HoldsAll(m, [[-y] + ls] + Pairs(y, ls, -1)) <==>
      (HoldsLit(m, y) <==> exists k | 0 <= k < |ls| :: HoldsLit(m, ls[k]))
  {
    var big := [-y] + ls;
    HoldsAllCons(m, big, Pairs(y, ls, -1));
    forall k | 0 <= k < |ls| ensures HoldsClause(m, Pairs(y, ls, -1)[k]) <==> (HoldsLit(m, ls[k]) ==> HoldsLit(m, y)) {
      Two(m, y, -ls[k]);
    }
    forall k | 0 <= k < |ls| ensures HoldsLit(m, ls[k]) ==> HoldsClause(m, big) {
      assert big[k + 1] == ls[k] && big[k + 1] in big;
    }
    assert !HoldsLit(m, y) ==> HoldsClause(m, big) by { assert big[0] in big; }
    if HoldsClause(m, big) && HoldsLit(m, y) {
      var l :| l in big && HoldsLit(m, l);
      var k :| 0 <= k < |big| && big[k] == l;
      assert ls[k - 1] == l;
    }
    assert forall k | 0 <= k < |ls| :: Pairs(y, ls, -1)[k] == [y, -ls[k]];
  }

  lemma Two(m: Model, a: int, b: int)
    ensures HoldsClause(m, [a, b]) <==> HoldsLit(m, a) || HoldsLit(m, b)
  {
    assert a in [a, b] && b in [a, b];
  }

  lemma Three(m: Model, a: int, b: int, c: int)
    ensures HoldsClause(m, [a, b, c]) <==> HoldsLit(m, a) || HoldsLit(m, b) || HoldsLit(m, c)
  {
    assert a in [a, b, c] && b in [a, b, c] && c in [a, b, c];
  }

  lemma Four(m: Model, c0: seq<int>, c1: seq<int>, c2: seq<int>, c3: seq<int>)
    ensures HoldsAll(m, [c0, c1, c2, c3]) <==>
      HoldsClause(m, c0) && HoldsClause(m, c1) && HoldsClause(m, c2) && HoldsClause(m, c3)
  {
    var f := [c0, c1, c2, c3];
    assert f[0] == c0 && f[1] == c1 && f[2] == c2 && f[3] == c3;
  }

  lemma XorMeans(m: Model, y: int, a: int, b: int)
    requires y != 0 && a != 0 && b != 0
    ensures HoldsAll(m, [[-y, -a, -b], [-y, a, b], [y, -a, b], [y, a, -b]]) <==>
      (HoldsLit(m, y) <==> HoldsLit(m, a) != HoldsLit(m, b))
  {
    Four(m, [-y, -a, -b], [-y, a, b], [y, -a, b], [y, a, -b]);
    Three(m, -y, -a, -b);
    Three(m, -y, a, b);
    Three(m, y, -a, b);
    Three(m, y, a, -b);
  }

  lemma IteMeans(m: Model, y: int, c: int, t: int, e: int)
    requires y != 0 && c != 0 && t != 0 && e != 0
    ensures HoldsAll(m, [[-c, -t, y], [-c, t, -y], [c, -e, y], [c, e, -y]]) <==>
      (HoldsLit(m, y) <==> if HoldsLit(m, c) then HoldsLit(m, t) else HoldsLit(m, e))
  {
    Four(m, [-c, -t, y], [-c, t, -y], [c, -e, y], [c, e, -y]);
    Three(m, -c, -t, y);
    Three(m, -c, t, -y);
    Three(m, c, -e, y);
    Three(m, c, e, -y);
  }

  lemma GateClausesOk(s: Sig, n: nat, y: int, ls: seq<int>)
    requires Gate(s) && |ls| == |Args(s)| && LitOk(n, y) && forall k | 0 <= k < |ls| :: LitOk(n, ls[k])
    ensures forall i | 0 <= i < |GateClauses(s, y, ls)| :: ClauseOk(n, GateClauses(s, y, ls)[i])
  {
    forall l | l in Negated(ls) ensures LitOk(n, l) {
      var k :| 0 <= k < |Negated(ls)| && Negated(ls)[k] == l;
      assert LitOk(n, ls[k]);
    }
    forall l | l in ls ensures LitOk(n, l) {}
    forall k | 0 <= k < |ls| ensures ClauseOk(n, [-y, ls[k]]) && ClauseOk(n, [y, -ls[k]]) {
      assert LitOk(n, ls[k]);
    }
  }

  /** Defining a fresh variable as a gate is a conservative extension. */
  lemma GateGrows(f: seq<seq<int>>, n: nat, s: Sig, ls: seq<int>)
    requires Gate(s) && |ls| == |Args(s)| && forall k | 0 <= k < |ls| :: LitOk(n, ls[k])
    requires forall i | 0 <= i < |f| :: ClauseOk(n, f[i])
    ensures Grows(f, n, f + GateClauses(s, n + 1, ls), n + 1)
  {
    var y := n + 1;
    var g := GateClauses(s, y, ls);
    forall m: Model | HoldsAll(m, f) ensures Extendable(m, n, f + g) {
      var yi: int := y;
      var m' := if GateVal(s, Vals(m, ls)) then m + {yi} else m - {yi};
      assert Agree(n, m, m');
      AgreeAll(n, m, m', f);
      assert Vals(m', ls) == Vals(m, ls) by {
        forall k | 0 <= k < |ls| ensures HoldsLit(m', ls[k]) == HoldsLit(m, ls[k]) {
          assert LitOk(n, ls[k]);
        }
      }
      GateMeans(m', s, y, ls);
      HoldsAllPlus(m', f, g);
    }
  }

  lemma HoldsAllPlus(m: Model, f: seq<seq<int>>, g: seq<seq<int>>)
    ensures HoldsAll(m, f + g) <==> HoldsAll(m, f) && HoldsAll(m, g)
  {
    var h := f + g;
    if HoldsAll(m, h) {
      forall i | 0 <= i < |f| ensures HoldsClause(m, f[i]) { assert f[i] == h[i]; }
      forall i | 0 <= i < |g| ensures HoldsClause(m, g[i]) { assert g[i] == h[|f| + i]; }
    }
  }

  /** The gate variable equals the gate. */
  lemma GateEncodes(f: seq<seq<int>>, env: map<Name, int>, s: Sig, y: int, ls: seq<int>)
    requires Gate(s) && |ls| == |Args(s)| && y != 0 && forall k | 0 <= k < |ls| :: ls[k] != 0
    requires forall k | 0 <= k < |ls| :: Encodes(f, env, Args(s)[k], ls[k])
    ensures Encodes(f + GateClauses(s, y, ls), env, s, y)
  {
    var g := GateClauses(s, y, ls);
    forall m: Model | HoldsAll(m, f + g) ensures HoldsLit(m, y) <==> Eval(s, EnvOf(m, env)) {
      HoldsAllPlus(m, f, g);
      GateMeans(m, s, y, ls);
      GateEval(s, EnvOf(m, env), Vals(m, ls));
    }
  }

  // ---- the encoder ----------------------------------------------------------

  /** What the encoder keeps about a solver: the formula so far means what the memo
      and the constant-true literal say. */
  ghost predicate Ready(s: Solver, env: map<Name, int>, memo: map<Sig, int>)
    reads s
  {
    && s.Valid() && EnvOk(s.nVars, env)
    && MemoOk(s.formula, s.nVars, env, memo) && TrueOk(s.formula, s.nVars, s.trueLit)
  }

  method AddAll(s: Solver, cls: seq<seq<int>>)
    requires s.Valid() && forall i | 0 <= i < |cls| :: ClauseOk(s.nVars, cls[i])
    modifies s
    ensures s.Valid() && s.formula == old(s.formula) + cls && s.nVars == old(s.nVars) && s.trueLit == old(s.trueLit)
  {
    hide Solver.Valid;
    var i := 0;
    while i < |cls|
      invariant i <= |cls| && s.Valid() && s.nVars == old(s.nVars) && s.trueLit == old(s.trueLit)
      invariant s.formula == old(s.formula) + cls[..i]
    {
      var _ := s.AddClause(cls[i]);
      assert cls[..i + 1] == cls[..i] + [cls[i]];
      i := i + 1;
    }
    assert cls[..i] == cls;
  }

  lemma FreshTrueGrows(f: seq<seq<int>>, n: nat)
    requires forall i | 0 <= i < |f| :: ClauseOk(n, f[i])
    ensures Grows(f, n, f + [[n + 1]], n + 1)
    ensures TrueOk(f + [[n + 1]], n + 1, n + 1)
  {
    var y: int := n + 1;
    forall m: Model | HoldsAll(m, f) ensures Extendable(m, n, f + [[y]]) {
      var m' := m + {y};
      assert Agree(n, m, m');
      AgreeAll(n, m, m', f);
      assert y in [y] && HoldsClause(m', [y]);
      HoldsAllAppend(m', f, [y]);
    }
    forall m: Model | HoldsAll(m, f + [[y]]) ensures HoldsLit(m, y) {
      HoldsAllAppend(m, f, [y]);
    }
  }

  /** _true_lit: made on first use. */
  method TrueLit(s: Solver) returns (t: int)
    requires s.Valid() && TrueOk(s.formula, s.nVars, s.trueLit)
    modifies s
    ensures s.Valid() && TrueOk(s.formula, s.nVars, s.trueLit) && t == s.trueLit != 0
    ensures Grows(old(s.formula), old(s.nVars), s.formula, s.nVars)
  {
    hide Grows, Solver.Valid;
    t := s.trueLit;
    if t == 0 {
      s.ClausesOk();
      FreshTrueGrows(s.formula, s.nVars);
      t := s.NewVar();
      assert ClauseOk(s.nVars, [t]);
      var _ := s.AddClause([t]);
      s.SetTrueLit(t);
    } else {
      GrowsRefl(s.formula, s.nVars);
    }
  }

  lemma MemoAdd(f: seq<seq<int>>, n: nat, env: map<Name, int>, memo: map<Sig, int>, sig: Sig, lit: int)
    requires MemoOk(f, n, env, memo) && LitOk(n, lit) && Encodes(f, env, sig, lit)
    ensures MemoOk(f, n, env, memo[sig := lit])
  {
  }

  lemma ConstEncodes(f: seq<seq<int>>, n: nat, env: map<Name, int>, b: bool, t: int)
    requires TrueOk(f, n, t) && t != 0
    ensures LitOk(n, if b then t else -t) && Encodes(f, env, Const(b), if b then t else -t)
  {
  }

  lemma LeafEncodes(f: seq<seq<int>>, n: nat, env: map<Name, int>, x: Name)
    requires EnvOk(n, env) && x in env
    ensures LitOk(n, env[x]) && Encodes(f, env, Leaf(x), env[x])
  {
  }

  lemma NotEncodes(f: seq<seq<int>>, n: nat, env: map<Name, int>, a: Sig, lit: int)
    requires Encodes(f, env, a, lit) && LitOk(n, lit)
    ensures LitOk(n, -lit) && Encodes(f, env, Not(a), -lit)
  {
  }

  /** tseitin. */
  method Tseitin(s: Solver, sig: Sig, env: map<Name, int>, memo0: map<Sig, int>) returns (lit: int, memo: map<Sig, int>)
    requires Ready(s, env, memo0) && Support(sig) <= env.Keys
    modifies s
    ensures Ready(s, env, memo) && LitOk(s.nVars, lit) && Encodes(s.formula, env, sig, lit)
    ensures Grows(old(s.formula), old(s.nVars), s.formula, s.nVars)
    decreases sig, 1
  {
    hide Solver.Valid, MemoOk, Encodes, EnvOk, TrueOk, Eval, LitOk, Grows, Support;
    ghost var f, n := s.formula, s.nVars;
    memo := memo0;
    if sig.Const? {
      var t := TrueLit(s);
      lit := if sig.val then t else -t;
      GrowsLater(f, n, s.formula, s.nVars, env, memo);
      ConstEncodes(s.formula, s.nVars, env, sig.val, t);
    } else if sig.Leaf? {
      LeafRead(sig.name);
      lit := env[sig.name];
      LeafEncodes(f, n, env, sig.name);
      GrowsRefl(f, n);
    } else if sig in memo {
      lit := memo[sig];
      MemoHit(f, n, env, memo, sig);
      GrowsRefl(f, n);
    } else if sig.Not? {
      SupportArg(sig, 0);
      lit, memo := Tseitin(s, sig.arg, env, memo);
      NotEncodes(s.formula, s.nVars, env, sig.arg, lit);
      lit := -lit;
      MemoAdd(s.formula, s.nVars, env, memo, sig, lit);
      memo := memo[sig := lit];
    } else {
      var ls;
      ls, memo := EncodeArgs(s, sig, env, memo);
      ghost var f1, n1 := s.formula, s.nVars;
      lit := DefineGate(s, sig, ls, env, memo);
      GrowsTrans(f, n, f1, n1, s.formula, s.nVars);
      MemoAdd(s.formula, s.nVars, env, memo, sig, lit);
      memo := memo[sig := lit];
    }
  }

  lemma LeafRead(x: Name)
    ensures x in Support(Leaf(x))
  {
  }

  lemma MemoHit(f: seq<seq<int>>, n: nat, env: map<Name, int>, memo: map<Sig, int>, sig: Sig)
    requires MemoOk(f, n, env, memo) && sig in memo
    ensures LitOk(n, memo[sig]) && Encodes(f, env, sig, memo[sig])
  {
  }

  lemma GrowsLater(f: seq<seq<int>>, n: nat, f': seq<seq<int>>, n': nat, env: map<Name, int>, memo: map<Sig, int>)
    requires Grows(f, n, f', n') && EnvOk(n, env) && MemoOk(f, n, env, memo)
    ensures n <= n' && f <= f' && EnvOk(n', env) && MemoOk(f', n', env, memo)
  {
    MemoLater(f, n, f', n', env, memo);
    assert forall l: int :: LitOk(n, l) ==> LitOk(n', l);
  }

  ghost predicate ArgsEncoded(f: seq<seq<int>>, n: nat, env: map<Name, int>, sig: Sig, ls: seq<int>) {
    |ls| <= |Args(sig)| && forall k | 0 <= k < |ls| :: LitOk(n, ls[k]) && Encodes(f, env, Args(sig)[k], ls[k])
  }

  lemma ArgsLater(f: seq<seq<int>>, n: nat, f': seq<seq<int>>, n': nat, env: map<Name, int>, sig: Sig, ls: seq<int>)
    requires ArgsEncoded(f, n, env, sig, ls) && Grows(f, n, f', n')
    ensures ArgsEncoded(f', n', env, sig, ls)
  {
    forall k | 0 <= k < |ls| ensures Encodes(f', env, Args(sig)[k], ls[k]) {
      EncodesLater(f, f', env, Args(sig)[k], ls[k]);
    }
  }

  lemma ArgsAppend(f: seq<seq<int>>, n: nat, env: map<Name, int>, sig: Sig, ls: seq<int>, l: int)
    requires ArgsEncoded(f, n, env, sig, ls) && |ls| < |Args(sig)|
    requires LitOk(n, l) && Encodes(f, env, Args(sig)[|ls|], l)
    ensures ArgsEncoded(f, n, env, sig, ls + [l])
  {
  }

  method EncodeArgs(s: Solver, sig: Sig, env: map<Name, int>, memo0: map<Sig, int>)
      returns (ls: seq<int>, memo: map<Sig, int>)
    requires Ready(s, env, memo0) && Support(sig) <= env.Keys
    modifies s
    ensures Ready(s, env, memo) && ArgsEncoded(s.formula, s.nVars, env, sig, ls) && |ls| == |Args(sig)|
    ensures Grows(old(s.formula), old(s.nVars), s.formula, s.nVars)
    decreases sig, 0
  {
    hide Solver.Valid, MemoOk, Encodes, EnvOk, TrueOk, Eval, LitOk, Grows, Support;
    GrowsRefl(s.formula, s.nVars);
    ls, memo := [], memo0;
    var args := Args(sig);
    while |ls| < |args|
      invariant Ready(s, env, memo) && ArgsEncoded(s.formula, s.nVars, env, sig, ls)
      invariant Grows(old(s.formula), old(s.nVars), s.formula, s.nVars)
    {
      ghost var f, n := s.formula, s.nVars;
      SupportArg(sig, |ls|);
      ArgBelow(sig, |ls|);
      var l;
      l, memo := Tseitin(s, args[|ls|], env, memo);
      GrowsTrans(old(s.formula), old(s.nVars), f, n, s.formula, s.nVars);
      ArgsLater(f, n, s.formula, s.nVars, env, sig, ls);
      ArgsAppend(s.formula, s.nVars, env, sig, ls, l);
      ls := ls + [l];
    }
  }

  lemma ArgBelow(s: Sig, k: nat)
    requires k < |Args(s)|
    ensures (s decreases to Args(s)[k])
  {
  }

  /** A fresh variable and the clauses that define it. */
  method DefineGate(s: Solver, sig: Sig, ls: seq<int>, ghost env: map<Name, int>, ghost memo: map<Sig, int>)
      returns (y: int)
    requires Ready(s, env, memo) && ArgsEncoded(s.formula, s.nVars, env, sig, ls) && |ls| == |Args(sig)| && Gate(sig)
    modifies s
    ensures Ready(s, env, memo) && LitOk(s.nVars, y) && Encodes(s.formula, env, sig, y)
    ensures Grows(old(s.formula), old(s.nVars), s.formula, s.nVars)
  {
    hide Solver.Valid, MemoOk, Encodes, EnvOk, TrueOk, Eval, Grows, Support, GateClauses;
    ghost var f, n := s.formula, s.nVars;
    s.ClausesOk();
    y := s.NewVar();
    var cls := GateClauses(sig, y, ls);
    GateClausesOk(sig, s.nVars, y, ls);
    AddAll(s, cls);
    GateGrows(f, n, sig, ls);
    GateEncodes(f, env, sig, y, ls);
    GrowsLater(f, n, s.formula, s.nVars, env, memo);
    TrueLater(f, n, s.formula, s.nVars, s.trueLit);
  }
}

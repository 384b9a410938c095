/** Gate-level signals and what they compute. A signal is identified with its
    structure; sharing shows in the encoder's and the simulator's memo tables. */
module Circuit {

  type Name = string

  /** A valuation of the names: the set of those that are 1. */
  type Env = set<Name>

  datatype Sig =
    | Const(val: bool)
    | Leaf(name: Name)
    | Not(arg: Sig)
    | And(ands: seq<Sig>)
    | Or(ors: seq<Sig>)
    | Xor(left: Sig, right: Sig)
    | Ite(cond: Sig, thn: Sig, els: Sig)

  function Args(s: Sig): seq<Sig> {
    match s
    case Const(_) => []
    case Leaf(_) => []
    case Not(a) => [a]
    case And(xs) => xs
    case Or(xs) => xs
    case Xor(a, b) => [a, b]
    case Ite(c, t, e) => [c, t, e]
  }

  predicate Eval(s: Sig, env: Env)
    decreases s
  {
    match s
    case Const(b) => b
    case Leaf(n) => n in env
    case Not(a) => !Eval(a, env)
    case And(xs) => forall k | 0 <= k < |xs| :: Eval(xs[k], env)
    case Or(xs) => exists k | 0 <= k < |xs| :: Eval(xs[k], env)
    case Xor(a, b) => Eval(a, env) != Eval(b, env)
    case Ite(c, t, e) => if Eval(c, env) then Eval(t, env) else Eval(e, env)
  }

  /** The names a signal reads: its cone of influence. */
  ghost function Support(s: Sig): set<Name>
    decreases s
  {
    match s
    case Leaf(n) => {n}
    case Const(_) => {}
    case _ => set k, n | 0 <= k < |Args(s)| && n in Support(Args(s)[k]) :: n
  }

  lemma SupportArg(s: Sig, k: nat)
    requires k < |Args(s)|
    ensures Support(Args(s)[k]) <= Support(s)
  {
    forall n | n in Support(Args(s)[k]) ensures n in Support(s) {
      assert 0 <= k < |Args(s)| && n in Support(Args(s)[k]);
    }
  }

  /** A signal's value depends on the names it reads and on nothing else. */
  lemma {:induction false} EvalSupport(s: Sig, e: Env, e': Env)
    requires forall n | n in Support(s) :: n in e <==> n in e'
    ensures Eval(s, e) == Eval(s, e')
    decreases s
  {
    forall k: nat | k < |Args(s)| ensures Eval(Args(s)[k], e) == Eval(Args(s)[k], e') {
      SupportArg(s, k);
      EvalSupport(Args(s)[k], e, e');
    }
    EvalArgs(s, e, e');
  }

  /** A gate's value is a function of its arguments' values. */
  lemma EvalArgs(s: Sig, e: Env, e': Env)
    requires forall k: nat | k < |Args(s)| :: Eval(Args(s)[k], e) == Eval(Args(s)[k], e')
    requires s.Leaf? ==> (s.name in e <==> s.name in e')
    ensures Eval(s, e) == Eval(s, e')
  {
    match s
    case Not(a) => assert Args(s)[0] == a;
    case And(xs) =>
      assert forall k: nat | k < |xs| :: Eval(xs[k], e) == Eval(Args(s)[k], e');
    case Or(xs) =>
      assert forall k: nat | k < |xs| :: Eval(xs[k], e) == Eval(Args(s)[k], e');
    case Xor(a, b) => assert Args(s)[0] == a && Args(s)[1] == b;
    case Ite(c, t, f) => assert Args(s)[0] == c && Args(s)[1] == t && Args(s)[2] == f;
    case _ =>
  }

  // ---- the simplifying constructors ------------------------------------------

  const TRUE := Const(true)
  const FALSE := Const(false)

  function NOT(a: Sig): (r: Sig)
    ensures forall e :: Eval(r, e) == !Eval(a, e)
    ensures Support(r) <= Support(a)
  {
    assert Support(Not(a)) <= Support(a);
    assert a.Not? ==> Args(a)[0] == a.arg;
    match a
    case Const(b) => Const(!b)
    case Not(x) => x
    case _ => Not(a)
  }

  function XOR(a: Sig, b: Sig): (r: Sig)
    ensures forall e :: Eval(r, e) == (Eval(a, e) != Eval(b, e))
    ensures Support(r) <= Support(a) + Support(b)
  {
    if a.Const? then (if a.val then NOT(b) else b)
    else if b.Const? then (if b.val then NOT(a) else a)
    else Xor(a, b)
  }

  function XNOR(a: Sig, b: Sig): (r: Sig)
    ensures forall e :: Eval(r, e) == (Eval(a, e) == Eval(b, e))
    ensures Support(r) <= Support(a) + Support(b)
  {
    NOT(XOR(a, b))
  }

  function ITE(c: Sig, t: Sig, f: Sig): (r: Sig)
    ensures forall e :: Eval(r, e) == if Eval(c, e) then Eval(t, e) else Eval(f, e)
    ensures Support(r) <= Support(c) + Support(t) + Support(f)
  {
    if c.Const? then (if c.val then t else f) else Ite(c, t, f)
  }

  /** All the signals hold. */
  predicate Every(xs: seq<Sig>, e: Env) {
    forall k | 0 <= k < |xs| :: Eval(xs[k], e)
  }

  ghost predicate Within(xs: seq<Sig>, ns: set<Name>) {
    forall k | 0 <= k < |xs| :: Support(xs[k]) <= ns
  }

  predicate Some(xs: seq<Sig>, e: Env) {
    exists k | 0 <= k < |xs| :: Eval(xs[k], e)
  }

  /** AND over any number of signals: constants folded, one argument unwrapped. */
  method AND(xs: seq<Sig>) returns (r: Sig)
    ensures forall e :: Eval(r, e) == Every(xs, e)
    ensures forall ns :: Within(xs, ns) ==> Support(r) <= ns
  {
    var out: seq<Sig> := [];
    var i := 0;
    while i < |xs|
      invariant i <= |xs| && forall e :: Every(out, e) == Every(xs[..i], e)
      invariant forall ns :: Within(xs, ns) ==> Within(out, ns)
    {
      EveryNext(xs, i, out);
      if xs[i].Const? {
        if !xs[i].val {
          return FALSE;
        }
      } else {
        out := out + [xs[i]];
      }
      i := i + 1;
    }
    assert xs[..i] == xs;
    assert forall e :: Eval(And(out), e) == Every(out, e);
    r := if |out| == 0 then TRUE else if |out| == 1 then out[0] else And(out);
  }

  lemma EveryNext(xs: seq<Sig>, i: nat, out: seq<Sig>)
    requires i < |xs|
    ensures forall e :: Every(xs[..i + 1], e) == (Every(xs[..i], e) && Eval(xs[i], e))
    ensures forall e :: Every(out + [xs[i]], e) == (Every(out, e) && Eval(xs[i], e))
    ensures forall e :: !Eval(xs[i], e) ==> !Every(xs, e)
  {
    assert xs[..i + 1] == xs[..i] + [xs[i]];
    EveryAppend(xs[..i], xs[i]);
    EveryAppend(out, xs[i]);
  }

  lemma EveryAppend(xs: seq<Sig>, x: Sig)
    ensures forall e :: Every(xs + [x], e) == (Every(xs, e) && Eval(x, e))
  {
    forall e ensures Every(xs + [x], e) == (Every(xs, e) && Eval(x, e)) {
      var ys := xs + [x];
      assert ys[|xs|] == x;
      assert forall k | 0 <= k < |xs| :: ys[k] == xs[k];
    }
  }

  /** OR, likewise. */
  method OR(xs: seq<Sig>) returns (r: Sig)
    ensures forall e :: Eval(r, e) == Some(xs, e)
    ensures forall ns :: Within(xs, ns) ==> Support(r) <= ns
  {
    var out: seq<Sig> := [];
    var i := 0;
    while i < |xs|
      invariant i <= |xs| && forall e :: Some(out, e) == Some(xs[..i], e)
      invariant forall ns :: Within(xs, ns) ==> Within(out, ns)
    {
      SomeNext(xs, i, out);
      if xs[i].Const? {
        if xs[i].val {
          return TRUE;
        }
      } else {
        out := out + [xs[i]];
      }
      i := i + 1;
    }
    assert xs[..i] == xs;
    assert forall e :: Eval(Or(out), e) == Some(out, e);
    r := if |out| == 0 then FALSE else if |out| == 1 then out[0] else Or(out);
  }

  lemma SomeNext(xs: seq<Sig>, i: nat, out: seq<Sig>)
    requires i < |xs|
    ensures forall e :: Some(xs[..i + 1], e) == (Some(xs[..i], e) || Eval(xs[i], e))
    ensures forall e :: Some(out + [xs[i]], e) == (Some(out, e) || Eval(xs[i], e))
    ensures forall e :: Eval(xs[i], e) ==> Some(xs, e)
  {
    assert xs[..i + 1] == xs[..i] + [xs[i]];
    SomeAppend(xs[..i], xs[i]);
    SomeAppend(out, xs[i]);
  }

  lemma SomeAppend(xs: seq<Sig>, x: Sig)
    ensures forall e :: Some(xs + [x], e) == (Some(xs, e) || Eval(x, e))
  {
    forall e ensures Some(xs + [x], e) == (Some(xs, e) || Eval(x, e)) {
      var ys := xs + [x];
      assert ys[|xs|] == x;
      assert forall k | 0 <= k < |xs| :: ys[k] == xs[k];
    }
  }

  // ---- two and three arguments ----------------------------------------------------

  lemma EveryTwo(x: Sig, y: Sig, e: Env)
    ensures Every([x, y], e) == (Eval(x, e) && Eval(y, e))
  {
    assert [x, y][0] == x && [x, y][1] == y;
  }

  lemma SomeTwo(x: Sig, y: Sig, e: Env)
    ensures Some([x, y], e) == (Eval(x, e) || Eval(y, e))
  {
    assert [x, y][0] == x && [x, y][1] == y;
  }

  method AndTwo(x: Sig, y: Sig) returns (r: Sig)
    ensures forall e :: Eval(r, e) == (Eval(x, e) && Eval(y, e))
    ensures Support(r) <= Support(x) + Support(y)
  {
    hide Every, Eval, Support;
    r := AND([x, y]);
    forall e ensures Eval(r, e) == (Eval(x, e) && Eval(y, e)) { EveryTwo(x, y, e); }
    assert Within([x, y], Support(x) + Support(y));
  }

  method AndThree(x: Sig, y: Sig, z: Sig) returns (r: Sig)
    ensures forall e :: Eval(r, e) == (Eval(x, e) && Eval(y, e) && Eval(z, e))
    ensures Support(r) <= Support(x) + Support(y) + Support(z)
  {
    hide Every, Eval, Support;
    r := AND([x, y, z]);
    forall e ensures Eval(r, e) == (Eval(x, e) && Eval(y, e) && Eval(z, e)) { EveryThree(x, y, z, e); }
    assert Within([x, y, z], Support(x) + Support(y) + Support(z));
  }

  lemma EveryThree(x: Sig, y: Sig, z: Sig, e: Env)
    ensures Every([x, y, z], e) == (Eval(x, e) && Eval(y, e) && Eval(z, e))
  {
    var xs := [x, y, z];
    assert xs[0] == x && xs[1] == y && xs[2] == z;
  }

  method OrTwo(x: Sig, y: Sig) returns (r: Sig)
    ensures forall e :: Eval(r, e) == (Eval(x, e) || Eval(y, e))
    ensures Support(r) <= Support(x) + Support(y)
  {
    hide Some, Eval, Support;
    r := OR([x, y]);
    forall e ensures Eval(r, e) == (Eval(x, e) || Eval(y, e)) { SomeTwo(x, y, e); }
    assert Within([x, y], Support(x) + Support(y));
  }
}

/** Ternary lifting: a witness of a query shortened to a cube whose every state
    witnesses it too, under the recorded inputs. */
module Lifting {
  import opened Circuit
  import opened Ternary
  import opened Transition
  import opened Ic3Spec
  import opened Sets

  /** Signals and the values that witnessed the query. */
  type Targets = seq<(Sig, bool)>

  ghost predicate TargetsOk(ts: TS, targets: Targets) {
    forall k | 0 <= k < |targets| :: Support(targets[k].0) <= Names(ts)
  }

  predicate Meets(targets: Targets, e: Env) {
    forall k | 0 <= k < |targets| :: Eval(targets[k].0, e) == targets[k].1
  }

  /** The targets are definite, at their values. */
  predicate Definitely(targets: Targets, lifted: TEnv) {
    forall k | 0 <= k < |targets| :: Kleene(targets[k].0, lifted) == Of(targets[k].1)
  }

  /** `lifted` is the valuation `e` with some state bits unknown. */
  ghost predicate Blurred(ts: TS, e: Env, lifted: TEnv) {
    && lifted.Keys == Names(ts)
    && (forall n | n in ts.state :: lifted[n] == X || lifted[n] == Of(n in e))
    && (forall n | n in Inputs(ts) :: lifted[n] == Of(n in e))
  }

  /** A name outside the support does not matter. */
  lemma {:induction false} KleeneSupport(s: Sig, e: TEnv, e': TEnv)
    requires forall n | n in Support(s) :: Look(e, n) == Look(e', n)
    ensures Kleene(s, e) == Kleene(s, e')
    decreases s
  {
    forall k: nat | k < |Args(s)| ensures Kleene(Args(s)[k], e) == Kleene(Args(s)[k], e') {
      SupportArg(s, k);
      KleeneSupport(Args(s)[k], e, e');
    }
    KleeneGate(s, e);
    KleeneGate(s, e');
    if !s.Leaf? {
      assert ArgVals(s, e) == ArgVals(s, e');
    }
  }

  lemma DropOutside(targets: Targets, lifted: TEnv, n: Name)
    requires Definitely(targets, lifted)
    requires forall k | 0 <= k < |targets| :: n !in Support(targets[k].0)
    ensures Definitely(targets, lifted[n := X])
  {
    forall k | 0 <= k < |targets| ensures Kleene(targets[k].0, lifted[n := X]) == Of(targets[k].1) {
      KleeneSupport(targets[k].0, lifted, lifted[n := X]);
    }
  }

  /** Each target's support, and their union. */
  method Supports(targets: Targets) returns (sups: seq<set<Name>>, cone: set<Name>)
    ensures |sups| == |targets| && forall k | 0 <= k < |sups| :: sups[k] == Support(targets[k].0)
    ensures forall k | 0 <= k < |targets| :: Support(targets[k].0) <= cone
  {
    sups, cone := [], {};
    while |sups| < |targets|
      invariant |sups| <= |targets| && forall k | 0 <= k < |sups| :: sups[k] == Support(targets[k].0) && sups[k] <= cone
    {
      var sup := SupportOf(targets[|sups|].0);
      cone := cone + sup;
      sups := sups + [sup];
    }
  }

  /** Do all the targets that read `n` keep their values? */
  method StillDefinite(targets: Targets, sups: seq<set<Name>>, lifted: TEnv, n: Name) returns (ok: bool)
    requires |sups| == |targets| && forall k | 0 <= k < |sups| :: sups[k] == Support(targets[k].0) <= lifted.Keys
    ensures ok <==> forall k | 0 <= k < |targets| && n in sups[k] :: Kleene(targets[k].0, lifted) == Of(targets[k].1)
  {
    var memo := map[];
    var i := 0;
    while i < |targets|
      invariant i <= |targets| && MemoRight(memo, lifted)
      invariant forall k | 0 <= k < i && n in sups[k] :: Kleene(targets[k].0, lifted) == Of(targets[k].1)
    {
      if n in sups[i] {
        var v;
        v, memo := TernaryEval(targets[i].0, lifted, memo);
        if v != Of(targets[i].1) {
          return false;
        }
      }
      i := i + 1;
    }
    ok := true;
  }

  /** The first loop: bits no target reads. */
  method FreeDrops(ts: TS, e: Env, targets: Targets, cone: set<Name>, lifted0: TEnv) returns (lifted: TEnv)
    requires Wf(ts) && Blurred(ts, e, lifted0) && Definitely(targets, lifted0)
    requires forall k | 0 <= k < |targets| :: Support(targets[k].0) <= cone
    ensures Blurred(ts, e, lifted) && Definitely(targets, lifted)
  {
    hide Kleene;
    lifted := lifted0;
    var i := 0;
    while i < |ts.state|
      invariant i <= |ts.state| && Blurred(ts, e, lifted) && Definitely(targets, lifted)
    {
      var n := ts.state[i];
      assert n in States(ts);
      if n !in cone {
        DropOutside(targets, lifted, n);
        lifted := lifted[n := X];
      }
      i := i + 1;
    }
  }

  lemma DefinitelyMore(targets: Targets, e: TEnv, e': TEnv)
    requires SharperEnv(e, e') && Definitely(targets, e)
    ensures Definitely(targets, e')
  {
    hide Kleene;
    forall k | 0 <= k < |targets| ensures Kleene(targets[k].0, e') == Of(targets[k].1) {
      Monotone(targets[k].0, e, e');
    }
  }

  /** Unknown already, or the targets would not stay definite without it. */
  predicate Needed(targets: Targets, lifted: TEnv, n: Name) {
    n in lifted && (lifted[n] == X || !Definitely(targets, lifted[n := X]))
  }

  /** Knowing less, what was needed still is. */
  lemma StillNeeded(targets: Targets, lifted: TEnv, n: Name, m: Name)
    requires Needed(targets, lifted, n) && m in lifted
    ensures Needed(targets, lifted[m := X], n)
  {
    hide Definitely;
    var less := lifted[m := X];
    if less[n] != X && Definitely(targets, less[n := X]) {
      assert SharperEnv(less[n := X], lifted[n := X]);
      DefinitelyMore(targets, less[n := X], lifted[n := X]);
    }
  }

  /** The second: bits the targets stay definite without. */
  method SimulatedDrops(ts: TS, e: Env, targets: Targets, sups: seq<set<Name>>, lifted0: TEnv) returns (lifted: TEnv)
    requires Wf(ts) && Blurred(ts, e, lifted0) && Definitely(targets, lifted0) && TargetsOk(ts, targets)
    requires |sups| == |targets| && forall k | 0 <= k < |sups| :: sups[k] == Support(targets[k].0)
    ensures Blurred(ts, e, lifted) && Definitely(targets, lifted)
    ensures forall n | n in ts.state :: Needed(targets, lifted, n)
  {
    hide Kleene, Needed, Definitely, TargetsOk;
    lifted := lifted0;
    SupportsKnown(ts, targets, sups);
    var i := 0;
    while i < |ts.state|
      invariant i <= |ts.state| && Blurred(ts, e, lifted) && Definitely(targets, lifted)
      invariant forall j | 0 <= j < i :: Needed(targets, lifted, ts.state[j])
    {
      var n := ts.state[i];
      assert n in States(ts);
      if lifted[n] != X {
        var tried := lifted[n := X];
        var ok := StillDefinite(targets, sups, tried, n);
        DroppedOrNot(targets, sups, lifted, n, ok);
        if ok {
          forall j | 0 <= j < i ensures Needed(targets, tried, ts.state[j]) {
            StillNeeded(targets, lifted, ts.state[j], n);
          }
          lifted := tried;
        }
      }
      IsNeeded(targets, lifted, n);
      i := i + 1;
    }
  }

  lemma SupportsKnown(ts: TS, targets: Targets, sups: seq<set<Name>>)
    requires TargetsOk(ts, targets) && |sups| == |targets|
        && forall k | 0 <= k < |targets| :: sups[k] == Support(targets[k].0)
    ensures forall k | 0 <= k < |sups| :: sups[k] <= Names(ts)
  {
  }

  lemma DroppedOrNot(targets: Targets, sups: seq<set<Name>>, lifted: TEnv, n: Name, ok: bool)
    requires Definitely(targets, lifted)
    requires |sups| == |targets| && forall k | 0 <= k < |sups| :: sups[k] == Support(targets[k].0)
    requires ok <==>
        forall k | 0 <= k < |targets| && n in sups[k] :: Kleene(targets[k].0, lifted[n := X]) == Of(targets[k].1)
    ensures ok <==> Definitely(targets, lifted[n := X])
  {
    hide Kleene;
    if ok {
      Dropped(targets, sups, lifted, n);
    }
  }

  lemma IsNeeded(targets: Targets, lifted: TEnv, n: Name)
    requires n in lifted && (lifted[n] == X || !Definitely(targets, lifted[n := X]))
    ensures Needed(targets, lifted, n)
  {
  }

  lemma Dropped(targets: Targets, sups: seq<set<Name>>, lifted: TEnv, n: Name)
    requires Definitely(targets, lifted)
    requires |sups| == |targets| && forall k | 0 <= k < |sups| :: sups[k] == Support(targets[k].0)
    requires forall k | 0 <= k < |targets| && n in sups[k] :: Kleene(targets[k].0, lifted[n := X]) == Of(targets[k].1)
    ensures Definitely(targets, lifted[n := X])
  {
    forall k | 0 <= k < |targets| ensures Kleene(targets[k].0, lifted[n := X]) == Of(targets[k].1) {
      if n !in sups[k] {
        KleeneSupport(targets[k].0, lifted, lifted[n := X]);
      }
    }
  }

  /** The cube of the known state bits. */
  method KnownBits(ts: TS, lifted: TEnv) returns (cube: Cube)
    requires Wf(ts) && States(ts) <= lifted.Keys
    ensures forall l :: l in cube <==> IndexOk(ts, l) && lifted[Bit(ts, l)] == Of(l > 0)
  {
    cube := {};
    var i := 0;
    while i < |ts.state|
      invariant i <= |ts.state|
      invariant forall l :: l in cube <==> IndexOk(ts, l) && -i <= l <= i && lifted[Bit(ts, l)] == Of(l > 0)
    {
      assert ts.state[i] in States(ts);
      if lifted[ts.state[i]] != X {
        cube := cube + {if lifted[ts.state[i]] == One then i + 1 else -(i + 1)};
      }
      assert Bit(ts, i + 1) == Bit(ts, -(i + 1)) == ts.state[i];
      i := i + 1;
    }
  }

  /** The cube speaks for the query: its every state meets the targets when the
      inputs are those of `e`. */
  ghost predicate SpeaksFor(ts: TS, cube: Cube, e: Env, targets: Targets) {
    forall e' | InCube(ts, cube, e') && e' * Inputs(ts) == e * Inputs(ts) :: Meets(targets, e')
  }

  lemma LiftedSpeaks(ts: TS, e: Env, lifted: TEnv, cube: Cube, targets: Targets)
    requires Wf(ts) && Blurred(ts, e, lifted) && Definitely(targets, lifted)
    requires forall l :: IndexOk(ts, l) && lifted[Bit(ts, l)] == Of(l > 0) ==> l in cube
    ensures SpeaksFor(ts, cube, e, targets)
  {
    forall e' | InCube(ts, cube, e') && e' * Inputs(ts) == e * Inputs(ts) ensures Meets(targets, e') {
      forall n | n in lifted && lifted[n] != X ensures lifted[n] == Of(n in e') {
        KnownIn(ts, e, lifted, cube, e', n);
      }
      forall k | 0 <= k < |targets| ensures Eval(targets[k].0, e') == targets[k].1 {
        Definite(targets[k].0, lifted, e', targets[k].1);
      }
    }
  }

  lemma KnownIn(ts: TS, e: Env, lifted: TEnv, cube: Cube, e': Env, n: Name)
    requires Wf(ts) && Blurred(ts, e, lifted) && n in lifted && lifted[n] != X
    requires forall l :: IndexOk(ts, l) && lifted[Bit(ts, l)] == Of(l > 0) ==> l in cube
    requires InCube(ts, cube, e') && e' * Inputs(ts) == e * Inputs(ts)
    ensures lifted[n] == Of(n in e')
  {
    if n in Inputs(ts) {
      assert n in e' <==> n in e' * Inputs(ts);
      assert n in e <==> n in e * Inputs(ts);
    } else {
      assert n in States(ts);
      var i :| 0 <= i < |ts.state| && ts.state[i] == n;
      var l := if n in e then i + 1 else -(i + 1);
      assert Bit(ts, l) == n;
      assert l in cube && LitAt(ts, l, e');
    }
  }

  /** The cube has a literal of bit `n`. */
  ghost predicate Mentions(ts: TS, cube: Cube, n: Name) {
    exists l :: l in cube && IndexOk(ts, l) && Bit(ts, l) == n
  }

  /** What the cube and the recorded inputs tell. */
  ghost function CubeEnv(ts: TS, cube: Cube, e: Env): TEnv {
    map n | n in Names(ts) :: if n in States(ts) && !Mentions(ts, cube, n) then X else Of(n in e)
  }

  /** The targets do not depend on the state at all. */
  ghost predicate Stateless(ts: TS, targets: Targets, e: Env) {
    Definitely(targets, CubeEnv(ts, {}, e))
  }

  /** No literal of the cube can be left out: without it some target is indefinite. */
  ghost predicate Tight(ts: TS, targets: Targets, cube: Cube, e: Env) {
    forall n | n in States(ts) && Mentions(ts, cube, n) :: !Definitely(targets, CubeEnv(ts, cube, e)[n := X])
  }

  ghost predicate Minterm(ts: TS, cube: Cube) {
    forall n | n in States(ts) :: Mentions(ts, cube, n)
  }

  /** _lift. */
  method Lift(ts: TS, e: Env, targets: Targets) returns (cube: Cube)
    requires Wf(ts) && e <= Names(ts) && TargetsOk(ts, targets) && Meets(targets, e)
    ensures CubeOk(ts, cube) && InCube(ts, cube, e) && SpeaksFor(ts, cube, e, targets)
    ensures if Stateless(ts, targets, e) then Minterm(ts, cube) else Tight(ts, targets, cube, e)
    ensures cube == {} ==> ts.state == []
  {
    hide Kleene, Eval, Definitely, Needed, SpeaksFor, Stateless, Tight, Minterm;
    var exact := Exact(e, Names(ts));
    ExactDefinite(ts, targets, e);
    var sups, cone := Supports(targets);
    var lifted := FreeDrops(ts, e, targets, cone, exact);
    lifted := SimulatedDrops(ts, e, targets, sups, lifted);
    cube := KnownBits(ts, lifted);
    LiftedSpeaks(ts, e, lifted, cube, targets);
    LiftedHolds(ts, e, lifted, cube);
    LiftedTight(ts, e, lifted, cube, targets);
    if cube == {} {
      cube := KnownBits(ts, exact);
      LiftedSpeaks(ts, e, exact, cube, targets);
      LiftedHolds(ts, e, exact, cube);
      FullCube(ts, e, exact, cube);
    }
  }

  lemma ExactDefinite(ts: TS, targets: Targets, e: Env)
    requires TargetsOk(ts, targets) && Meets(targets, e)
    ensures Definitely(targets, Exact(e, Names(ts)))
  {
    hide Kleene, Eval;
    forall k | 0 <= k < |targets| ensures Kleene(targets[k].0, Exact(e, Names(ts))) == Of(targets[k].1) {
      ExactKleene(targets[k].0, e, Names(ts));
    }
  }

  lemma CubeEnvIs(ts: TS, e: Env, lifted: TEnv, cube: Cube)
    requires Wf(ts) && Blurred(ts, e, lifted)
    requires forall l :: l in cube <==> IndexOk(ts, l) && lifted[Bit(ts, l)] == Of(l > 0)
    ensures CubeEnv(ts, cube, e) == lifted
    ensures forall n | n in States(ts) :: Mentions(ts, cube, n) <==> lifted[n] != X
  {
    forall n | n in States(ts) ensures Mentions(ts, cube, n) <==> lifted[n] != X {
      if lifted[n] != X {
        var i :| 0 <= i < |ts.state| && ts.state[i] == n;
        var l := if n in e then i + 1 else -(i + 1);
        assert Bit(ts, l) == n && l in cube;
      }
    }
  }

  /** Either no bit is needed and none is left, or every bit left is needed. */
  lemma LiftedTight(ts: TS, e: Env, lifted: TEnv, cube: Cube, targets: Targets)
    requires Wf(ts) && Blurred(ts, e, lifted) && Definitely(targets, lifted)
        && forall n | n in ts.state :: Needed(targets, lifted, n)
    requires forall l :: l in cube <==> IndexOk(ts, l) && lifted[Bit(ts, l)] == Of(l > 0)
    ensures Stateless(ts, targets, e) <==> cube == {}
    ensures Tight(ts, targets, cube, e)
  {
    hide Kleene, Definitely;
    CubeEnvIs(ts, e, lifted, cube);
    if Stateless(ts, targets, e) && cube != {} {
      var l := Pick(cube);
      var n := Bit(ts, l);
      assert n in ts.state && Needed(targets, lifted, n);
      var none := CubeEnv(ts, {}, e);
      assert SharperEnv(none, lifted[n := X]);
      DefinitelyMore(targets, none, lifted[n := X]);
    }
    forall n | n in States(ts) && Mentions(ts, cube, n) ensures !Definitely(targets, CubeEnv(ts, cube, e)[n := X]) {
      assert Needed(targets, lifted, n);
    }
  }

  lemma LiftedHolds(ts: TS, e: Env, lifted: TEnv, cube: Cube)
    requires Wf(ts) && Blurred(ts, e, lifted)
    requires forall l :: l in cube <==> IndexOk(ts, l) && lifted[Bit(ts, l)] == Of(l > 0)
    ensures CubeOk(ts, cube) && InCube(ts, cube, e)
  {
    forall l | l in cube ensures LitAt(ts, l, e) {
      assert Bit(ts, l) in ts.state;
    }
  }

  lemma FullCube(ts: TS, e: Env, exact: TEnv, cube: Cube)
    requires Wf(ts) && exact == Exact(e, Names(ts)) && Blurred(ts, e, exact)
    requires forall l :: l in cube <==> IndexOk(ts, l) && exact[Bit(ts, l)] == Of(l > 0)
    ensures Minterm(ts, cube) && (cube == {} ==> ts.state == [])
  {
    CubeEnvIs(ts, e, exact, cube);
    forall n | n in States(ts) ensures Mentions(ts, cube, n) {
      assert exact[n] != X;
    }
    if ts.state != [] {
      assert Mentions(ts, cube, ts.state[0]);
    }
  }
}

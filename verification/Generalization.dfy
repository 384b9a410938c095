/** When the one pass of a generalization leaves a minimal cube, and an input on which it does not. */
module Generalization {
  import opened Sets
  import opened Circuit
  import opened Transition
  import opened Ic3Spec
  import opened OnePass
  import opened Pdr

  /** The cube avoids reset, and no frame state outside it steps into it. */
  ghost predicate Sealed(ts: TS, frames: seq<set<Cube>>, i: nat, c: Cube)
    requires Wf(ts) && i > 0
  {
    !MeetsInit(ts, c)
        && forall e, e' | Follows(ts, e, e') && FrameHas(ts, frames, i - 1, e) && InCube(ts, c, e') :: InCube(ts, c, e)
  }

  lemma DroppableIs(ts: TS, frames: seq<set<Cube>>, i: nat, c: Cube)
    requires Wf(ts) && i > 0 && CubeOk(ts, c)
    ensures Droppable(ts, frames, i)(c) <==> Sealed(ts, frames, i, c)
  {
    hide FrameHas, InCube, MeetsInit, SatClause, Negate, Follows;
    forall e ensures SatClause(ts, Negate(c), e) <==> !InCube(ts, c, e) { NegateMeans(ts, c, e); }
  }

  /** No step of the frame keeps a literal of the cube and gains another. */
  ghost predicate NoGain(ts: TS, frames: seq<set<Cube>>, i: nat, cube: Cube)
    requires Wf(ts) && i > 0
  {
    forall e, e' | Follows(ts, e, e') && FrameHas(ts, frames, i - 1, e) ::
        !KeepsOne(ts, cube, e, e') || GainsNone(ts, cube, e, e')
  }

  predicate KeepsOne(ts: TS, cube: Cube, e: Env, e': Env) {
    exists x | x in cube :: LitAt(ts, x, e) && LitAt(ts, x, e')
  }

  predicate GainsNone(ts: TS, cube: Cube, e: Env, e': Env) {
    forall y | y in cube && LitAt(ts, y, e') :: LitAt(ts, y, e)
  }

  /** Then what cannot be dropped stays so. */
  lemma NoGainLasting(ts: TS, frames: seq<set<Cube>>, i: nat, cube: Cube)
    requires Wf(ts) && i > 0 && CubeOk(ts, cube) && NoGain(ts, frames, i, cube)
    ensures Lasting(Droppable(ts, frames, i), cube)
  {
    hide Droppable, NoGain, Sealed;
    var ok := Droppable(ts, frames, i);
    forall c, d, l | d <= c <= cube && l in d && Drops(ok, d, l) ensures c - {l} != {} && ok(c - {l}) {
      DroppableIs(ts, frames, i, d - {l});
      DroppableIs(ts, frames, i, c - {l});
      assert d - {l} <= c - {l};
      SealedLarger(ts, frames, i, cube, c - {l}, d - {l});
    }
  }

  lemma SealedLarger(ts: TS, frames: seq<set<Cube>>, i: nat, cube: Cube, c: Cube, d: Cube)
    requires Wf(ts) && i > 0 && d <= c <= cube && d != {} && NoGain(ts, frames, i, cube) && Sealed(ts, frames, i, d)
    ensures Sealed(ts, frames, i, c)
  {
    hide FrameHas, LitAt, Follows;
    forall e | e <= Names(ts) && IsInit(ts, e) && InCube(ts, c, e) ensures InCube(ts, d, e) {
      SmallerCube(ts, c, d, e);
    }
    forall e, e' | Follows(ts, e, e') && FrameHas(ts, frames, i - 1, e) && InCube(ts, c, e') ensures InCube(ts, c, e) {
      SmallerCube(ts, c, d, e');
      assert InCube(ts, d, e);
      var x := Pick(d);
      assert x in cube && LitAt(ts, x, e) && LitAt(ts, x, e');
      assert KeepsOne(ts, cube, e, e');
      assert GainsNone(ts, cube, e, e');
    }
  }

  /** If no step of the frame keeps a literal of the cube and gains another, every order of the
      literals gives a minimal cube. */
  lemma NoGainMinimal(ts: TS, frames: seq<set<Cube>>, i: nat, cube: Cube, order: seq<int>)
    requires Wf(ts) && i > 0 && CubeOk(ts, cube) && NoGain(ts, frames, i, cube) && Lists(order, cube)
    ensures Minimal(Droppable(ts, frames, i), Pass(Droppable(ts, frames, i), cube, order))
  {
    hide Droppable, NoGain, Lasting, Lists, Minimal, Pass;
    NoGainLasting(ts, frames, i, cube);
    LastingMinimal(Droppable(ts, frames, i), cube, order);
  }

  // ---- an input ------------------------------------------------------------------------------------

  /** Three bits, reset 000; 101 steps to 011, 010 to 110, and every other state to itself. */
  function ThreeBits(): TS {
    var a, b, c := Leaf("a"), Leaf("b"), Leaf("c");
    TS(["a", "b", "c"], [],
       map["a" := Ite(a, Ite(b, TRUE, Not(c)), Ite(b, Not(c), FALSE)), "b" := Ite(b, TRUE, Ite(a, c, FALSE)), "c" := c],
       map["a" := false, "b" := false, "c" := false], FALSE, [], [])
  }

  lemma ThreeWf()
    ensures Wf(ThreeBits()) && States(ThreeBits()) == {"a", "b", "c"}
  {
    hide Support;
    var ts := ThreeBits();
    assert States(ts) == {"a", "b", "c"};
    assert Inputs(ts) == {};
    ThreeSupport();
  }

  lemma ThreeSupport()
    ensures forall n | n in ThreeBits().state :: Support(ThreeBits().next[n]) <= {"a", "b", "c"}
    ensures Support(ThreeBits().bad) == {}
  {
    hide Support;
    var a, b, c := Leaf("a"), Leaf("b"), Leaf("c");
    LeafSupports();
    IteSupport(b, TRUE, Not(c));
    IteSupport(b, Not(c), FALSE);
    IteSupport(a, Ite(b, TRUE, Not(c)), Ite(b, Not(c), FALSE));
    IteSupport(a, c, FALSE);
    IteSupport(b, TRUE, Ite(a, c, FALSE));
  }

  lemma LeafSupports()
    ensures Support(Leaf("a")) == {"a"} && Support(Leaf("b")) == {"b"} && Support(Leaf("c")) == {"c"}
    ensures Support(TRUE) == {} && Support(FALSE) == {} && Support(Not(Leaf("c"))) <= {"c"}
  {
    assert Args(Not(Leaf("c"))) == [Leaf("c")];
  }

  lemma IteSupport(c: Sig, t: Sig, f: Sig)
    ensures Support(Ite(c, t, f)) <= Support(c) + Support(t) + Support(f)
  {
    var s := Ite(c, t, f);
    forall n | n in Support(s) ensures n in Support(c) + Support(t) + Support(f) {
      var k :| 0 <= k < |Args(s)| && n in Support(Args(s)[k]);
      assert Args(s)[k] == c || Args(s)[k] == t || Args(s)[k] == f;
    }
  }

  lemma ThreeNext(e: Env)
    requires Wf(ThreeBits())
    ensures "a" in Next(ThreeBits(), e) <==> if "a" in e then "b" in e || "c" !in e else "b" in e && "c" !in e
    ensures "b" in Next(ThreeBits(), e) <==> "b" in e || ("a" in e && "c" in e)
    ensures "c" in Next(ThreeBits(), e) <==> "c" in e
  {
    hide Wf;
    var ts := ThreeBits();
    ThreeWf();
  }

  lemma ThreeLits(e: Env)
    ensures LitAt(ThreeBits(), 1, e) <==> "a" in e
    ensures LitAt(ThreeBits(), 2, e) <==> "b" in e
    ensures LitAt(ThreeBits(), 3, e) <==> "c" in e
  {
  }

  lemma ThreeStep(e: Env, e': Env)
    requires Wf(ThreeBits()) && Follows(ThreeBits(), e, e')
    ensures "a" in e' <==> if "a" in e then "b" in e || "c" !in e else "b" in e && "c" !in e
    ensures "b" in e' <==> "b" in e || ("a" in e && "c" in e)
    ensures "c" in e' <==> "c" in e
  {
    hide Wf, Next;
    ThreeWf();
    ThreeNext(e);
    assert forall x | x in {"a", "b", "c"} :: x in e' <==> x in e' * States(ThreeBits());
  }

  /** The all-true frames. */
  function Open(): seq<set<Cube>> {
    [{}, {}, {}]
  }

  lemma AvoidsReset(c: Cube)
    requires Wf(ThreeBits()) && c <= {1, 2, 3} && c != {}
    ensures !MeetsInit(ThreeBits(), c)
  {
    hide Wf, Next, LitAt;
    var ts := ThreeBits();
    ThreeWf();
    forall e | e <= Names(ts) && IsInit(ts, e) ensures !InCube(ts, c, e) {
      ThreeLits(e);
      assert InitState(ts) == {};
      assert forall x | x in {"a", "b", "c"} :: x in e <==> x in e * States(ts);
      var l :| l in c;
      assert !LitAt(ts, l, e);
    }
  }

  /** Which of the cubes that the pass meets are sealed. */
  lemma ThreeSealed()
    requires Wf(ThreeBits())
    ensures Sealed(ThreeBits(), Open(), 2, {1, 2, 3}) && Sealed(ThreeBits(), Open(), 2, {1, 3})
        && Sealed(ThreeBits(), Open(), 2, {3})
  {
    hide Wf, Next, LitAt, MeetsInit, Follows, FrameHas, ThreeBits;
    var ts := ThreeBits();
    AvoidsReset({1, 2, 3});
    AvoidsReset({1, 3});
    AvoidsReset({3});
    forall e, e' | Follows(ts, e, e')
      ensures InCube(ts, {1, 2, 3}, e') ==> InCube(ts, {1, 2, 3}, e)
      ensures InCube(ts, {1, 3}, e') ==> InCube(ts, {1, 3}, e)
      ensures InCube(ts, {3}, e') ==> InCube(ts, {3}, e)
    {
      ThreeStep(e, e');
      ThreeLits(e);
      ThreeLits(e');
    }
  }

  lemma ThreeOpen()
    requires Wf(ThreeBits())
    ensures !Sealed(ThreeBits(), Open(), 2, {2, 3}) && !Sealed(ThreeBits(), Open(), 2, {1})
  {
    hide Wf, Next, LitAt, MeetsInit;
    var ts := ThreeBits();
    ThreeWf();
    Enters({"a", "c"}, {"b", "c"});
    ThreeLits({"a", "c"});
    ThreeLits({"b", "c"});
    Enters({"b"}, {"a", "b"});
    ThreeLits({"b"});
    ThreeLits({"a", "b"});
  }

  lemma Enters(e: Env, e': Env)
    requires Wf(ThreeBits()) && e <= {"a", "b", "c"} && e' <= {"a", "b", "c"}
    requires "a" in e' <==> if "a" in e then "b" in e || "c" !in e else "b" in e && "c" !in e
    requires "b" in e' <==> "b" in e || ("a" in e && "c" in e)
    requires "c" in e' <==> "c" in e
    ensures Follows(ThreeBits(), e, e') && FrameHas(ThreeBits(), Open(), 1, e)
  {
    hide Wf, Next;
    ThreeWf();
    ThreeNext(e);
    assert e' * States(ThreeBits()) == e';
    forall x ensures x in Next(ThreeBits(), e) <==> x in e' {
      NextIn(ThreeBits(), e, x);
    }
  }

  lemma NextIn(ts: TS, e: Env, x: Name)
    requires Wf(ts)
    ensures x in Next(ts, e) ==> x in States(ts)
  {
  }

  /** One pass in the order 1, 2, 3 keeps {1, 3}: 1 could not be dropped from the whole cube, but
      can be from what is left. */
  lemma NotMinimal()
    ensures Wf(ThreeBits()) && Lists([1, 2, 3], {1, 2, 3}) && Droppable(ThreeBits(), Open(), 2)({1, 2, 3})
    ensures Pass(Droppable(ThreeBits(), Open(), 2), {1, 2, 3}, [1, 2, 3]) == {1, 3}
    ensures Drops(Droppable(ThreeBits(), Open(), 2), {1, 3}, 1) && !Minimal(Droppable(ThreeBits(), Open(), 2), {1, 3})
  {
    ThreeWf();
    hide Wf, Sealed, Droppable, ThreeBits;
    var ok := Droppable(ThreeBits(), Open(), 2);
    ThreeSealed();
    ThreeOpen();
    ThreeDrops();
    assert {1, 2, 3} - {1} == {2, 3} && {1, 2, 3} - {2} == {1, 3} && {1, 3} - {3} == {1} && {1, 3} - {1} == {3};
    assert Pass(ok, {1, 3}, []) == {1, 3};
    assert Pass(ok, {1, 3}, [3]) == {1, 3};
    assert [2, 3][1..] == [3] && [1, 2, 3][1..] == [2, 3];
    assert Pass(ok, {1, 2, 3}, [2, 3]) == {1, 3};
  }

  lemma ThreeDrops()
    requires Wf(ThreeBits())
    ensures forall c | c in {{1, 2, 3}, {2, 3}, {1, 3}, {1}, {3}} ::
      Droppable(ThreeBits(), Open(), 2)(c) <==> Sealed(ThreeBits(), Open(), 2, c)
  {
    hide Wf, Sealed, Droppable;
    forall c | c in {{1, 2, 3}, {2, 3}, {1, 3}, {1}, {3}}
      ensures Droppable(ThreeBits(), Open(), 2)(c) <==> Sealed(ThreeBits(), Open(), 2, c)
    {
      DroppableIs(ThreeBits(), Open(), 2, c);
    }
  }
}

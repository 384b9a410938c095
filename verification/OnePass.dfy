/** Shrinking a set by one pass over its elements, and when no order of them can leave one that a
    second pass would drop. */
module OnePass {
  import opened Sets

  type Ints = set<int>
  /** The sets that may be shrunk to. */
  type Family = Ints -> bool

  ghost predicate Drops(ok: Family, c: Ints, l: int) {
    l in c && c - {l} != {} && ok(c - {l})
  }

  ghost function Tried(ok: Family, c: Ints, l: int): Ints {
    if Drops(ok, c, l) then c - {l} else c
  }

  /** Try to drop the elements, one after the other. */
  ghost function Pass(ok: Family, c: Ints, order: seq<int>): Ints {
    if order == [] then c else Pass(ok, Tried(ok, c, order[0]), order[1..])
  }

  /** The elements of `c`, each once. */
  ghost predicate Lists(order: seq<int>, c: Ints) {
    && (forall l :: l in order <==> l in c)
    && forall i, j | 0 <= i < j < |order| :: order[i] != order[j]
  }

  /** Nothing more can be dropped. */
  ghost predicate Minimal(ok: Family, g: Ints) {
    forall l | l in g :: !Drops(ok, g, l)
  }

  lemma {:induction false} PassAppend(ok: Family, c: Ints, order: seq<int>, l: int)
    ensures Pass(ok, c, order + [l]) == Tried(ok, Pass(ok, c, order), l)
    decreases |order|
  {
    hide Tried;
    if order == [] {
      assert ([] + [l])[1..] == [];
    } else {
      assert (order + [l])[1..] == order[1..] + [l];
      PassAppend(ok, Tried(ok, c, order[0]), order[1..], l);
    }
  }

  lemma ListsAppend(order: seq<int>, c: Ints, l: int)
    requires Lists(order, c) && l !in c
    ensures Lists(order + [l], c + {l})
  {
  }

  // ---- the sets a pass goes through ---------------------------------------------------------------

  /** One element dropped at a time. */
  ghost predicate Way(ok: Family, cs: seq<Ints>) {
    cs != [] && forall k | 0 <= k < |cs| - 1 :: Shrunk(ok, cs[k], cs[k + 1])
  }

  ghost predicate Shrunk(ok: Family, c: Ints, d: Ints) {
    exists l :: Drops(ok, c, l) && d == c - {l}
  }

  /** Somewhere on the way the element could not be dropped. */
  ghost predicate Resists(ok: Family, cs: seq<Ints>, x: int) {
    exists k :: 0 <= k < |cs| && !Drops(ok, cs[k], x)
  }

  ghost predicate AllResist(ok: Family, cs: seq<Ints>, xs: Ints) {
    forall x | x in xs :: Resists(ok, cs, x)
  }

  /** The way to `g`: every element that is left was blocked somewhere on it. */
  ghost predicate Reaches(ok: Family, cs: seq<Ints>, cube: Ints, g: Ints) {
    Way(ok, cs) && cs[0] == cube && cs[|cs| - 1] == g && AllResist(ok, cs, g)
  }

  /** Dropping one element after the other can end in a set that is not minimal, each element left
      having been impossible to drop somewhere on the way. */
  ghost predicate Trap(ok: Family, cube: Ints) {
    exists cs: seq<Ints> :: cs != [] && Reaches(ok, cs, cube, cs[|cs| - 1]) && !Minimal(ok, cs[|cs| - 1])
  }

  lemma ResistsLater(ok: Family, c: Ints, cs: seq<Ints>, x: int)
    requires Resists(ok, cs, x)
    ensures Resists(ok, [c] + cs, x)
  {
    var k :| 0 <= k < |cs| && !Drops(ok, cs[k], x);
    assert ([c] + cs)[k + 1] == cs[k];
  }

  /** The way of a pass: to its result, and every element tried and kept was blocked on it. */
  lemma {:induction false} PassWay(ok: Family, c: Ints, order: seq<int>) returns (cs: seq<Ints>)
    ensures cs != [] && Way(ok, cs) && cs[0] == c && cs[|cs| - 1] == Pass(ok, c, order) && Pass(ok, c, order) <= c
    ensures forall l | l in order && l in Pass(ok, c, order) :: Resists(ok, cs, l)
    decreases |order|
  {
    hide Drops;
    if order == [] {
      cs := [c];
    } else {
      var l, d := order[0], Tried(ok, c, order[0]);
      var ds := PassWay(ok, d, order[1..]);
      var g := Pass(ok, c, order);
      if Drops(ok, c, l) {
        cs := [c] + ds;
        assert d == c - {l} && Shrunk(ok, c, d);
        WayCons(ok, c, ds);
        forall x | x in order && x in g ensures Resists(ok, cs, x) {
          assert x in order[1..];
          ResistsLater(ok, c, ds, x);
        }
      } else {
        cs := ds;
        assert !Drops(ok, cs[0], l);
        forall x | x in order && x in g ensures Resists(ok, cs, x) {
          if x != l { assert x in order[1..]; }
        }
      }
    }
  }

  lemma WayCons(ok: Family, c: Ints, ds: seq<Ints>)
    requires Way(ok, ds) && Shrunk(ok, c, ds[0])
    ensures Way(ok, [c] + ds)
  {
    hide Shrunk;
    var cs := [c] + ds;
    forall k | 0 <= k < |cs| - 1 ensures Shrunk(ok, cs[k], cs[k + 1]) {
      if k > 0 { assert Shrunk(ok, ds[k - 1], ds[k]); }
    }
  }

  /** Elements that cannot be dropped leave the pass where it is. */
  lemma {:induction false} Stays(ok: Family, c: Ints, order: seq<int>, rest: seq<int>)
    requires forall l | l in order :: !Drops(ok, c, l)
    ensures Pass(ok, c, order + rest) == Pass(ok, c, rest)
    decreases |order|
  {
    hide Drops;
    if order == [] {
      assert order + rest == rest;
    } else {
      assert (order + rest)[0] == order[0] && (order + rest)[1..] == order[1..] + rest;
      Stays(ok, c, order[1..], rest);
    }
  }

  lemma Listing(c: Ints) returns (order: seq<int>)
    ensures Lists(order, c)
  {
    order := [];
    var rest := c;
    while rest != {}
      invariant rest <= c && Lists(order, c - rest)
      decreases rest
    {
      var l := Pick(rest);
      ListsAppend(order, c - rest, l);
      assert c - rest + {l} == c - (rest - {l});
      order := order + [l];
      rest := rest - {l};
    }
    assert c - rest == c;
  }

  /** Any such way is the way of a pass: try the elements that are to stay where they are blocked. */
  lemma {:induction false} WayPass(ok: Family, cs: seq<Ints>, keep: Ints) returns (order: seq<int>)
    requires Way(ok, cs) && keep <= cs[|cs| - 1] && AllResist(ok, cs, keep)
    ensures Pass(ok, cs[0], order) == cs[|cs| - 1] && cs[|cs| - 1] <= cs[0]
    ensures Lists(order, keep + (cs[0] - cs[|cs| - 1]))
    decreases |cs|
  {
    hide Drops, Lists;
    var c, g := cs[0], cs[|cs| - 1];
    var now := set x | x in keep && !Drops(ok, c, x);
    var stay := Listing(now);
    InListing(stay, now);
    if |cs| == 1 {
      forall x | x in keep ensures x in now {
        assert Resists(ok, cs, x);
      }
      assert now == keep && g == c;
      Stays(ok, c, stay, []);
      assert stay + [] == stay;
      assert keep + (c - g) == keep;
      order := stay;
    } else {
      assert Shrunk(ok, cs[0], cs[1]);
      var l :| Drops(ok, c, l) && cs[1] == c - {l};
      var later := keep - now;
      TailWay(ok, cs);
      TailResists(ok, cs, later);
      var more := WayPass(ok, cs[1..], later);
      var rest := [l] + more;
      DropFirst(ok, c, l, more);
      Stays(ok, c, stay, rest);
      order := stay + rest;
      Dropped(ok, c, l);
      ListsThree(stay, now, l, more, later + (cs[1] - g));
      assert now + {l} + (later + (cs[1] - g)) == keep + (c - g);
    }
  }

  lemma InListing(order: seq<int>, c: Ints)
    requires Lists(order, c)
    ensures forall l :: l in order <==> l in c
  {
  }

  lemma Dropped(ok: Family, c: Ints, l: int)
    requires Drops(ok, c, l)
    ensures l in c
  {
  }

  lemma TailWay(ok: Family, cs: seq<Ints>)
    requires Way(ok, cs) && |cs| > 1
    ensures Way(ok, cs[1..])
  {
    hide Shrunk;
    forall k | 0 <= k < |cs[1..]| - 1 ensures Shrunk(ok, cs[1..][k], cs[1..][k + 1]) {
      assert Shrunk(ok, cs[k + 1], cs[k + 2]);
    }
  }

  lemma TailResists(ok: Family, cs: seq<Ints>, later: Ints)
    requires |cs| > 1 && AllResist(ok, cs, later) && forall x | x in later :: Drops(ok, cs[0], x)
    ensures AllResist(ok, cs[1..], later)
  {
    hide Drops;
    forall x | x in later ensures Resists(ok, cs[1..], x) {
      assert Resists(ok, cs, x);
      var k :| 0 <= k < |cs| && !Drops(ok, cs[k], x);
      assert cs[1..][k - 1] == cs[k];
    }
  }

  lemma DropFirst(ok: Family, c: Ints, l: int, more: seq<int>)
    requires Drops(ok, c, l)
    ensures Pass(ok, c, [l] + more) == Pass(ok, c - {l}, more)
  {
    assert ([l] + more)[1..] == more;
  }

  lemma ListsThree(stay: seq<int>, now: Ints, l: int, more: seq<int>, later: Ints)
    requires Lists(stay, now) && Lists(more, later) && now !! later && l !in now && l !in later
    ensures Lists(stay + ([l] + more), now + {l} + later)
  {
    var order := stay + ([l] + more);
    forall i, j | 0 <= i < j < |order| ensures order[i] != order[j] {
      if i < |stay| && j > |stay| {
        assert stay[i] in stay && more[j - |stay| - 1] in more;
      }
    }
  }

  /** Every order of the elements gives a minimal set if and only if there is no trap: no way of
      dropping elements on which each element left is blocked somewhere, yet one could be dropped
      at its end. */
  lemma EveryOrderIff(ok: Family, cube: Ints)
    ensures (forall order | Lists(order, cube) :: Minimal(ok, Pass(ok, cube, order))) <==> !Trap(ok, cube)
  {
    hide Drops, Pass, Way, Minimal;
    if Trap(ok, cube) {
      var cs: seq<Ints> :| cs != [] && Reaches(ok, cs, cube, cs[|cs| - 1]) && !Minimal(ok, cs[|cs| - 1]);
      var g := cs[|cs| - 1];
      var order := WayPass(ok, cs, g);
      assert g + (cube - g) == cube;
      assert Lists(order, cube) && !Minimal(ok, Pass(ok, cube, order));
    }
    forall order | Lists(order, cube) && !Minimal(ok, Pass(ok, cube, order)) ensures Trap(ok, cube) {
      var cs := PassWay(ok, cube, order);
      assert Reaches(ok, cs, cube, cs[|cs| - 1]);
    }
  }

  // ---- a simple guard --------------------------------------------------------------------------------

  /** What cannot be dropped from a set cannot be dropped from a smaller one either. */
  ghost predicate Lasting(ok: Family, cube: Ints) {
    forall c, d, l | d <= c <= cube && l in d && Drops(ok, d, l) :: c - {l} != {} && ok(c - {l})
  }

  lemma LastingMinimal(ok: Family, cube: Ints, order: seq<int>)
    requires Lasting(ok, cube) && Lists(order, cube)
    ensures Minimal(ok, Pass(ok, cube, order))
  {
    hide Pass;
    var cs := PassWay(ok, cube, order);
    var g := Pass(ok, cube, order);
    forall l | l in g ensures !Drops(ok, g, l) {
      assert Resists(ok, cs, l);
      var k :| 0 <= k < |cs| && !Drops(ok, cs[k], l);
      Shrinks(ok, cs, 0, k);
      Shrinks(ok, cs, k, |cs| - 1);
    }
  }

  lemma {:induction false} Shrinks(ok: Family, cs: seq<Ints>, i: nat, j: nat)
    requires Way(ok, cs) && i <= j < |cs|
    ensures cs[j] <= cs[i]
    decreases j - i
  {
    if i < j {
      Shrinks(ok, cs, i + 1, j);
      assert Shrunk(ok, cs[i], cs[i + 1]);
    }
  }
}

/** Count-annotated decision diagrams: what a node stands for, and why walking down by
    counts is a bijection onto the solutions. */
module BddSpec {
  import opened Modular

  /** The bits of `s`, lowest first. */
  function Bits(s: nat, n: nat): (v: seq<bool>)
    ensures |v| == n
  {
    if n == 0 then [] else [s % 2 == 1] + Bits(s / 2, n - 1)
  }

  function Index(v: seq<bool>): (s: nat)
    ensures s < Pow2(|v|)
  {
    if v == [] then 0 else (if v[0] then 1 else 0) + 2 * Index(v[1..])
  }

  lemma {:induction false} BitsIndex(v: seq<bool>)
    ensures Bits(Index(v), |v|) == v
  {
    if v != [] {
      BitsIndex(v[1..]);
      assert Index(v) / 2 == Index(v[1..]);
      assert v == [v[0]] + v[1..];
    }
  }

  // ---- truth tables ---------------------------------------------------------------------

  /** A truth table over n variables: 2^n bits, the first variable varying fastest. */
  type Mask = seq<bool>

  function Even(mask: Mask): (lo: Mask)
    ensures |lo| == |mask| / 2
  {
    seq(|mask| / 2, i requires 0 <= i < |mask| / 2 => mask[2 * i])
  }

  function Odd(mask: Mask): (hi: Mask)
    ensures |hi| == |mask| / 2
  {
    seq(|mask| / 2, i requires 0 <= i < |mask| / 2 => mask[2 * i + 1])
  }

  lemma HalfAt(mask: Mask, b: bool, i: nat)
    requires 2 * i + 1 < |mask|
    ensures (if b then Odd(mask) else Even(mask))[i] == mask[2 * i + if b then 1 else 0]
  {
  }

  /** The table's value at an assignment. */
  predicate Sat(mask: Mask, v: seq<bool>)
    requires |mask| == Pow2(|v|)
    decreases |v|
  {
    if v == [] then mask[0] else Sat(if v[0] then Odd(mask) else Even(mask), v[1..])
  }

  lemma {:induction false} SatAt(mask: Mask, v: seq<bool>)
    requires |mask| == Pow2(|v|)
    ensures Sat(mask, v) == mask[Index(v)]
    decreases |v|
  {
    hide Pow2, Even, Odd;
    if v != [] {
      Pow2Next(|v| - 1);
      HalfAt(mask, v[0], Index(v[1..]));
      SatAt(if v[0] then Odd(mask) else Even(mask), v[1..]);
    }
  }

  // ---- nodes ------------------------------------------------------------------------------

  /** (low child, high child, solutions below). */
  type Node = (nat, nat, nat)

  /** Node `i` stands for the table `mask` over `n` variables. */
  ghost predicate StandsFor(nodes: seq<Node>, i: nat, n: nat, mask: Mask)
    decreases n
  {
    && |nodes| >= 2 && nodes[0] == (0, 0, 0) && nodes[1] == (1, 1, 1) && |mask| == Pow2(n) && i < |nodes|
    && if n == 0 then i == (if mask[0] then 1 else 0)
       else
         && StandsFor(nodes, nodes[i].0, n - 1, Even(mask)) && StandsFor(nodes, nodes[i].1, n - 1, Odd(mask))
         && nodes[i].2 == nodes[nodes[i].0].2 + nodes[nodes[i].1].2
  }

  lemma {:induction false} StandsForMore(nodes: seq<Node>, more: seq<Node>, i: nat, n: nat, mask: Mask)
    requires StandsFor(nodes, i, n, mask)
    ensures StandsFor(nodes + more, i, n, mask)
    decreases n
  {
    if n > 0 {
      StandsForMore(nodes, more, nodes[i].0, n - 1, Even(mask));
      StandsForMore(nodes, more, nodes[i].1, n - 1, Odd(mask));
    }
  }

  /** The walk down from node `i`: at each level low if the rank is below low's count. */
  ghost function Walk(nodes: seq<Node>, i: nat, n: nat, mask: Mask, rank: nat): (v: seq<bool>)
    requires StandsFor(nodes, i, n, mask)
    ensures |v| == n
    decreases n
  {
    if n == 0 then []
    else
      assert StandsFor(nodes, nodes[i].0, n - 1, Even(mask));
      var low := nodes[nodes[i].0].2;
      if rank < low then [false] + Walk(nodes, nodes[i].0, n - 1, Even(mask), rank)
      else [true] + Walk(nodes, nodes[i].1, n - 1, Odd(mask), rank - low)
  }

  /** Dictionary order, the first level deciding. */
  predicate Before(v: seq<bool>, w: seq<bool>)
    requires |v| == |w|
    decreases |v|
  {
    v != [] && if v[0] == w[0] then Before(v[1..], w[1..]) else w[0]
  }

  lemma SatStep(mask: Mask, b: bool, v: seq<bool>)
    requires |mask| == Pow2(|v| + 1)
    ensures Sat(mask, [b] + v) <==> Sat(if b then Odd(mask) else Even(mask), v)
  {
    assert ([b] + v)[1..] == v;
  }

  /** A walk from a rank below the count ends in a solution. */
  lemma {:induction false} WalkSat(nodes: seq<Node>, i: nat, n: nat, mask: Mask, rank: nat)
    requires StandsFor(nodes, i, n, mask) && rank < nodes[i].2
    ensures Sat(mask, Walk(nodes, i, n, mask, rank))
    decreases n
  {
    hide Sat, Even, Odd, Pow2;
    if n == 0 {
      NoLevels(mask);
    } else {
      var low := nodes[nodes[i].0].2;
      if rank < low {
        WalkSat(nodes, nodes[i].0, n - 1, Even(mask), rank);
        SatStep(mask, false, Walk(nodes, nodes[i].0, n - 1, Even(mask), rank));
      } else {
        WalkSat(nodes, nodes[i].1, n - 1, Odd(mask), rank - low);
        SatStep(mask, true, Walk(nodes, nodes[i].1, n - 1, Odd(mask), rank - low));
      }
    }
  }

  lemma NoLevels(mask: Mask)
    requires |mask| == Pow2(0)
    ensures Sat(mask, []) == mask[0]
  {
  }

  /** Larger ranks walk to later assignments: in particular no two meet. */
  lemma {:induction false} WalkOrder(nodes: seq<Node>, i: nat, n: nat, mask: Mask, rank: nat, later: nat)
    requires StandsFor(nodes, i, n, mask) && rank < later < nodes[i].2
    ensures Before(Walk(nodes, i, n, mask, rank), Walk(nodes, i, n, mask, later))
    decreases n
  {
    if n > 0 {
      var low := nodes[nodes[i].0].2;
      if later < low {
        WalkOrder(nodes, nodes[i].0, n - 1, Even(mask), rank, later);
      } else if rank >= low {
        WalkOrder(nodes, nodes[i].1, n - 1, Odd(mask), rank - low, later - low);
      }
      var v, w := Walk(nodes, i, n, mask, rank), Walk(nodes, i, n, mask, later);
      assert rank < low ==> v[1..] == Walk(nodes, nodes[i].0, n - 1, Even(mask), rank);
      assert rank >= low ==> v[1..] == Walk(nodes, nodes[i].1, n - 1, Odd(mask), rank - low);
      assert later < low ==> w[1..] == Walk(nodes, nodes[i].0, n - 1, Even(mask), later);
      assert later >= low ==> w[1..] == Walk(nodes, nodes[i].1, n - 1, Odd(mask), later - low);
    }
  }

  /** Every solution is the walk of some rank below the count. */
  lemma {:induction false} WalkAll(nodes: seq<Node>, i: nat, n: nat, mask: Mask, v: seq<bool>) returns (rank: nat)
    requires StandsFor(nodes, i, n, mask) && |v| == n && Sat(mask, v)
    ensures rank < nodes[i].2 && Walk(nodes, i, n, mask, rank) == v
    decreases n
  {
    if n == 0 {
      rank := 0;
    } else {
      var low := nodes[nodes[i].0].2;
      if v[0] {
        rank := WalkAll(nodes, nodes[i].1, n - 1, Odd(mask), v[1..]);
        rank := rank + low;
      } else {
        rank := WalkAll(nodes, nodes[i].0, n - 1, Even(mask), v[1..]);
      }
      assert v == [v[0]] + v[1..];
    }
  }

  // ---- the count -----------------------------------------------------------------------------

  ghost function AllBits(n: nat): set<seq<bool>> {
    if n == 0 then {[]}
    else Prefixed(false, AllBits(n - 1)) + Prefixed(true, AllBits(n - 1))
  }

  ghost function Prefixed(b: bool, vs: set<seq<bool>>): set<seq<bool>> {
    set v | v in vs :: [b] + v
  }

  lemma PrefixedIn(b: bool, vs: set<seq<bool>>, v: seq<bool>)
    ensures v in Prefixed(b, vs) <==> v != [] && v[0] == b && v[1..] in vs
  {
    if v in Prefixed(b, vs) {
      var w :| w in vs && [b] + w == v;
      assert v[1..] == w;
    }
    if v != [] {
      assert v == [v[0]] + v[1..];
    }
  }

  lemma {:induction false} AllBitsIs(n: nat, v: seq<bool>)
    ensures v in AllBits(n) <==> |v| == n
    decreases n
  {
    if n > 0 {
      PrefixedIn(false, AllBits(n - 1), v);
      PrefixedIn(true, AllBits(n - 1), v);
      if v != [] {
        AllBitsIs(n - 1, v[1..]);
      }
    }
  }

  ghost function Solutions(n: nat, mask: Mask): set<seq<bool>>
    requires |mask| == Pow2(n)
  {
    set v | v in AllBits(n) && |v| == n && Sat(mask, v)
  }

  lemma {:induction false} PrefixedSize(b: bool, vs: set<seq<bool>>)
    ensures |Prefixed(b, vs)| == |vs|
    decreases |vs|
  {
    if vs != {} {
      var v :| v in vs;
      PrefixedSize(b, vs - {v});
      assert ([b] + v)[1..] == v;
      assert Prefixed(b, vs) == Prefixed(b, vs - {v}) + {[b] + v};
      assert [b] + v !in Prefixed(b, vs - {v}) by {
        forall w | w in vs - {v} ensures [b] + w != [b] + v { assert ([b] + w)[1..] == w; }
      }
    }
  }

  lemma SolutionsSplit(n: nat, mask: Mask)
    requires n > 0 && |mask| == Pow2(n)
    ensures Solutions(n, mask) ==
        Prefixed(false, Solutions(n - 1, Even(mask))) + Prefixed(true, Solutions(n - 1, Odd(mask)))
  {
    var lo, hi := Solutions(n - 1, Even(mask)), Solutions(n - 1, Odd(mask));
    forall v | v in Solutions(n, mask) ensures v in Prefixed(v[0], if v[0] then hi else lo) {
      AllBitsIs(n - 1, v[1..]);
      assert v == [v[0]] + v[1..];
    }
    forall b, w | w in (if b then hi else lo) ensures [b] + w in Solutions(n, mask) {
      AllBitsIs(n, [b] + w);
      assert ([b] + w)[1..] == w;
    }
  }

  /** A node's count is the number of its table's solutions. */
  lemma {:induction false} CountExact(nodes: seq<Node>, i: nat, n: nat, mask: Mask)
    requires StandsFor(nodes, i, n, mask)
    ensures nodes[i].2 == |Solutions(n, mask)|
    decreases n
  {
    if n == 0 {
      assert Solutions(0, mask) == if mask[0] then {[]} else {};
    } else {
      CountExact(nodes, nodes[i].0, n - 1, Even(mask));
      CountExact(nodes, nodes[i].1, n - 1, Odd(mask));
      SolutionsSplit(n, mask);
      var lo, hi := Solutions(n - 1, Even(mask)), Solutions(n - 1, Odd(mask));
      PrefixedSize(false, lo);
      PrefixedSize(true, hi);
      assert Prefixed(false, lo) !! Prefixed(true, hi) by {
        forall v, w | v in lo && w in hi ensures [false] + v != [true] + w {
          assert ([false] + v)[0] != ([true] + w)[0];
        }
      }
    }
  }

  // ---- variable orders --------------------------------------------------------------------------

  /** `order` lists 0..n-1, each once. */
  ghost predicate Permutation(order: seq<nat>) {
    && (forall j | 0 <= j < |order| :: order[j] < |order|)
    && (forall j, k | 0 <= j < k < |order| :: order[j] != order[k])
    && forall x: nat | x < |order| :: x in order
  }

  /** The assignment of the variables whose level-`j` variable has the value `v[j]`. */
  ghost predicate Assigns(order: seq<nat>, v: seq<bool>, a: seq<bool>) {
    |a| == |v| == |order| && forall j | 0 <= j < |order| :: order[j] < |a| && a[order[j]] == v[j]
  }

  ghost function ByLevel(order: seq<nat>, a: seq<bool>): (v: seq<bool>)
    requires Permutation(order) && |a| == |order|
    ensures Assigns(order, v, a)
  {
    seq(|order|, j requires 0 <= j < |order| => a[order[j]])
  }

  /** Levels and variables determine each other. */
  lemma AssignsUnique(order: seq<nat>, v: seq<bool>, a: seq<bool>, v': seq<bool>, a': seq<bool>)
    requires Permutation(order) && Assigns(order, v, a) && Assigns(order, v', a')
    ensures v == v' <==> a == a'
  {
    if v == v' {
      forall x: nat | x < |a| ensures a[x] == a'[x] {
        assert x in order;
        var j :| 0 <= j < |order| && order[j] == x;
      }
    }
  }
}

/** The diagram builder and the unranking walk. */
module Bdd {
  import opened BddSpec
  import opened Sets
  import opened Modular

  // ---- which nodes there are --------------------------------------------------------------------

  /** The table and its cofactors, level by level. */
  ghost function Below(level: nat, nv: nat, mask: Mask): set<(nat, Mask)>
    decreases nv - level
  {
    if level >= nv then {}
    else {(level, mask)} + Below(level + 1, nv, Even(mask)) + Below(level + 1, nv, Odd(mask))
  }

  lemma {:induction false} BelowLater(level: nat, nv: nat, mask: Mask)
    ensures forall k | k in Below(level, nv, mask) :: level <= k.0 < nv
    decreases nv - level
  {
    hide Even, Odd;
    if level < nv {
      BelowLater(level + 1, nv, Even(mask));
      BelowLater(level + 1, nv, Odd(mask));
    }
  }

  /** The unique table holds everything below its keys. */
  ghost predicate Closed(unique: map<(nat, Mask), nat>, nv: nat) {
    forall k | k in unique :: Below(k.0, nv, k.1) <= unique.Keys
  }

  /** A node of its own for each key. */
  ghost predicate OneEach(unique: map<(nat, Mask), nat>, n: nat) {
    && n == |unique| + 2 && (forall k | k in unique :: 2 <= unique[k] < n)
    && forall k, l | k in unique && l in unique && unique[k] == unique[l] :: k == l
  }

  lemma BelowIs(level: nat, nv: nat, mask: Mask)
    ensures Below(level, nv, mask) ==
      if level >= nv then {}
      else {(level, mask)} + Below(level + 1, nv, Even(mask)) + Below(level + 1, nv, Odd(mask))
  {
    hide Even, Odd;
  }

  lemma LeafStands(nodes: seq<Node>, mask: Mask)
    requires |nodes| >= 2 && nodes[0] == (0, 0, 0) && nodes[1] == (1, 1, 1) && |mask| == Pow2(0)
    ensures |mask| == 1 && StandsFor(nodes, if mask[0] then 1 else 0, 0, mask)
  {
  }

  lemma Halves(n: nat, mask: Mask)
    requires n > 0 && |mask| == Pow2(n)
    ensures |mask| % 2 == 0 && |Even(mask)| == Pow2(n - 1) && |Odd(mask)| == Pow2(n - 1)
  {
  }

  lemma BelowKnown(unique: map<(nat, Mask), nat>, nv: nat, key: (nat, Mask))
    requires Closed(unique, nv) && key in unique
    ensures unique.Keys == unique.Keys + Below(key.0, nv, key.1)
  {
    hide Below;
  }

  lemma OneMore(unique: map<(nat, Mask), nat>, n: nat, key: (nat, Mask), nv: nat)
    requires OneEach(unique, n) && key !in unique && Closed(unique, nv)
        && Below(key.0, nv, key.1) <= unique.Keys + {key}
    ensures OneEach(unique[key := n], n + 1) && Closed(unique[key := n], nv)
  {
    hide Below, OneEach;
    OneEachMore(unique, n, key);
    assert unique[key := n].Keys == unique.Keys + {key};
  }

  lemma OneEachMore(unique: map<(nat, Mask), nat>, n: nat, key: (nat, Mask))
    requires OneEach(unique, n) && key !in unique
    ensures OneEach(unique[key := n], n + 1)
  {
    assert |unique[key := n]| == |unique| + 1;
  }

  class Builder {
    const nv: nat
    var nodes: seq<Node>
    var unique: map<(nat, Mask), nat>

    /** Every entry of the unique table stands for its key. */
    ghost predicate Valid()
      reads this
    {
      && |nodes| >= 2 && nodes[0] == (0, 0, 0) && nodes[1] == (1, 1, 1)
      && forall level, mask | (level, mask) in unique ::
           level < nv && StandsFor(nodes, unique[(level, mask)], nv - level, mask)
    }

    /** Nodes are shared: one for each table met at a level, and no others. */
    ghost predicate Shared()
      reads this
    {
      OneEach(unique, |nodes|) && Closed(unique, nv)
    }

    constructor (nv: nat)
      ensures Valid() && Shared() && this.nv == nv && nodes == [(0, 0, 0), (1, 1, 1)] && unique == map[]
    {
      this.nv := nv;
      nodes, unique := [(0, 0, 0), (1, 1, 1)], map[];
    }

    /** The two cofactors of a table, as one loop. */
    method Cofactors(mask: Mask) returns (lo: Mask, hi: Mask)
      requires |mask| % 2 == 0
      ensures lo == Even(mask) && hi == Odd(mask)
    {
      lo, hi := [], [];
      var sp := 0;
      while sp < |mask| / 2
        invariant 0 <= sp <= |mask| / 2 && lo == Even(mask)[..sp] && hi == Odd(mask)[..sp]
      {
        lo, hi := lo + [mask[2 * sp]], hi + [mask[2 * sp + 1]];
        sp := sp + 1;
      }
    }

    /** build: one node for each level and table, however often it is met. */
    method Build(level: nat, mask: Mask) returns (idx: nat)
      requires Valid() && Shared() && level <= nv && |mask| == Pow2(nv - level)
      modifies `nodes, `unique
      ensures Valid() && StandsFor(nodes, idx, nv - level, mask)
      ensures old(nodes) <= nodes
      ensures Shared() && unique.Keys == old(unique.Keys) + Below(level, nv, mask)
      decreases nv - level
    {
      hide Closed, OneEach, Even, Odd, Below, StandsFor, Pow2;
      BelowIs(level, nv, mask);
      if level == nv {
        LeafStands(nodes, mask);
        return if mask[0] then 1 else 0;
      }
      Halves(nv - level, mask);
      if (level, mask) in unique {
        BelowKnown(unique, nv, (level, mask));
        return unique[(level, mask)];
      }
      var lm, hm := Cofactors(mask);
      BelowLater(level + 1, nv, lm);
      BelowLater(level + 1, nv, hm);
      var lo := Build(level + 1, lm);
      ghost var nodes1 := nodes;
      var hi := Build(level + 1, hm);
      Grown(nodes1, nodes, lo, nv - level - 1, lm);
      idx := AddNode(level, mask, lo, hi);
    }

    method AddNode(level: nat, mask: Mask, lo: nat, hi: nat) returns (idx: nat)
      requires Valid() && Shared() && level < nv && |mask| == Pow2(nv - level) && (level, mask) !in unique
      requires Below(level, nv, mask) <= unique.Keys + {(level, mask)}
      requires StandsFor(nodes, lo, nv - level - 1, Even(mask)) && StandsFor(nodes, hi, nv - level - 1, Odd(mask))
      modifies `nodes, `unique
      ensures Valid() && StandsFor(nodes, idx, nv - level, mask)
      ensures old(nodes) <= nodes
      ensures Shared() && unique.Keys == old(unique.Keys) + {(level, mask)}
    {
      hide Closed, OneEach, Below, Even, Odd, Pow2;
      OneMore(unique, |nodes|, (level, mask), nv);
      ghost var nodes0 := nodes;
      InTable(nodes, lo, nv - level - 1, Even(mask));
      InTable(nodes, hi, nv - level - 1, Odd(mask));
      NewNode(nodes, lo, hi, nv - level, mask);
      hide StandsFor;
      idx := |nodes|;
      nodes := nodes + [(lo, hi, nodes[lo].2 + nodes[hi].2)];
      forall l, m | (l, m) in unique ensures StandsFor(nodes, unique[(l, m)], nv - l, m) {
        Grown(nodes0, nodes, unique[(l, m)], nv - l, m);
      }
      unique := unique[(level, mask) := idx];
    }
  }

  lemma NewNode(nodes: seq<Node>, lo: nat, hi: nat, n: nat, mask: Mask)
    requires n > 0 && |mask| == Pow2(n) && lo < |nodes| && hi < |nodes|
    requires StandsFor(nodes, lo, n - 1, Even(mask)) && StandsFor(nodes, hi, n - 1, Odd(mask))
    ensures StandsFor(nodes + [(lo, hi, nodes[lo].2 + nodes[hi].2)], |nodes|, n, mask)
  {
    hide StandsFor, Even, Odd, Pow2;
    InTable(nodes, lo, n - 1, Even(mask));
    var node: Node := (lo, hi, nodes[lo].2 + nodes[hi].2);
    StandsForMore(nodes, [node], lo, n - 1, Even(mask));
    StandsForMore(nodes, [node], hi, n - 1, Odd(mask));
    OneNode(nodes, node);
    Folded(nodes + [node], |nodes|, n, mask);
  }

  lemma OneNode(nodes: seq<Node>, node: Node)
    ensures (nodes + [node])[|nodes|] == node && forall i | 0 <= i < |nodes| :: (nodes + [node])[i] == nodes[i]
  {
  }

  lemma InTable(nodes: seq<Node>, i: nat, n: nat, mask: Mask)
    requires StandsFor(nodes, i, n, mask)
    ensures i < |nodes| && |nodes| >= 2 && nodes[0] == (0, 0, 0) && nodes[1] == (1, 1, 1)
  {
  }

  lemma Folded(nodes: seq<Node>, i: nat, n: nat, mask: Mask)
    requires 0 < n && |mask| == Pow2(n) && i < |nodes|
    requires StandsFor(nodes, nodes[i].0, n - 1, Even(mask)) && StandsFor(nodes, nodes[i].1, n - 1, Odd(mask))
    requires nodes[i].0 < |nodes| && nodes[i].1 < |nodes| && nodes[i].2 == nodes[nodes[i].0].2 + nodes[nodes[i].1].2
    ensures StandsFor(nodes, i, n, mask)
  {
    hide Even, Odd, Pow2;
    InTable(nodes, nodes[i].0, n - 1, Even(mask));
  }

  lemma Grown(nodes: seq<Node>, nodes': seq<Node>, i: nat, n: nat, mask: Mask)
    requires StandsFor(nodes, i, n, mask) && nodes <= nodes'
    ensures StandsFor(nodes', i, n, mask) && i < |nodes|
  {
    StandsForMore(nodes, nodes'[|nodes|..], i, n, mask);
    assert nodes' == nodes + nodes'[|nodes|..];
  }

  /** The table of a predicate over the variables, with bit `s` for the assignment in
      which level j's variable has bit j of `s`. */
  ghost predicate Tabulates(order: seq<nat>, mask: Mask, p: seq<bool> -> bool)
    requires Permutation(order)
  {
    && |mask| == Pow2(|order|)
    && forall s: nat, a | s < |mask| && Assigns(order, Bits(s, |order|), a) :: mask[s] == p(a)
  }

  /** The variables' values from the levels' values. */
  method Assignment(order: seq<nat>, v: seq<bool>) returns (a: seq<bool>)
    requires Permutation(order) && |v| == |order|
    ensures Assigns(order, v, a)
  {
    a := seq(|order|, _ => false);
    var j := 0;
    while j < |order|
      invariant j <= |order| && |a| == |order| && forall k | 0 <= k < j :: a[order[k]] == v[k]
    {
      a := a[order[j] := v[j]];
      j := j + 1;
    }
  }

  /** The root table, one row after the other. */
  method RootMask(order: seq<nat>, p: seq<bool> -> bool) returns (mask: Mask)
    requires Permutation(order)
    ensures Tabulates(order, mask, p)
  {
    mask := [];
    while |mask| < Pow2(|order|)
      invariant |mask| <= Pow2(|order|)
      invariant forall s: nat, a | s < |mask| && Assigns(order, Bits(s, |order|), a) :: mask[s] == p(a)
    {
      var a := Assignment(order, Bits(|mask|, |order|));
      forall a' | Assigns(order, Bits(|mask|, |order|), a') ensures a' == a {
        AssignsUnique(order, Bits(|mask|, |order|), a, Bits(|mask|, |order|), a');
      }
      mask := mask + [p(a)];
    }
  }

  /** The table holds at the levels' values just when the predicate holds of the variables'. */
  lemma TableMeans(order: seq<nat>, mask: Mask, p: seq<bool> -> bool, v: seq<bool>, a: seq<bool>)
    requires Permutation(order) && Tabulates(order, mask, p) && Assigns(order, v, a)
    ensures Sat(mask, v) <==> p(a)
  {
    SatAt(mask, v);
    BitsIndex(v);
  }

  /** A compiled predicate: the node table, the root and the number of solutions. */
  ghost predicate Compiled(order: seq<nat>, p: seq<bool> -> bool, nodes: seq<Node>, root: nat, mask: Mask)
    requires Permutation(order)
  {
    Tabulates(order, mask, p) && StandsFor(nodes, root, |order|, mask)
  }

  /** The assignments that satisfy the predicate. */
  ghost function Models(n: nat, p: seq<bool> -> bool): set<seq<bool>> {
    set a | a in AllBits(n) && |a| == n && p(a)
  }

  /** The same assignments, by level. */
  ghost function Levels(order: seq<nat>, ms: set<seq<bool>>): set<seq<bool>>
    requires Permutation(order)
  {
    set a | a in ms && |a| == |order| :: ByLevel(order, a)
  }

  lemma {:induction false} LevelsSize(order: seq<nat>, ms: set<seq<bool>>)
    requires Permutation(order) && forall a | a in ms :: |a| == |order|
    ensures |Levels(order, ms)| == |ms|
    decreases |ms|
  {
    if ms != {} {
      var a := Pick(ms);
      var rest := ms - {a};
      LevelsSize(order, rest);
      assert Levels(order, ms) == Levels(order, rest) + {ByLevel(order, a)};
      forall b | b in rest ensures ByLevel(order, b) != ByLevel(order, a) {
        AssignsUnique(order, ByLevel(order, a), a, ByLevel(order, b), b);
      }
    }
  }

  /** The solutions of the table are the predicate's, by level. */
  lemma LevelsSolve(order: seq<nat>, mask: Mask, p: seq<bool> -> bool)
    requires Permutation(order) && Tabulates(order, mask, p) && |mask| == Pow2(|order|)
    ensures Levels(order, Models(|order|, p)) == Solutions(|order|, mask)
  {
    hide Permutation, Tabulates, Assigns, Sat, AllBits;
    var n := |order|;
    forall a | a in Models(n, p) ensures ByLevel(order, a) in Solutions(n, mask) {
      TableMeans(order, mask, p, ByLevel(order, a), a);
      AllBitsIs(n, ByLevel(order, a));
    }
    forall v | v in Solutions(n, mask) ensures v in Levels(order, Models(n, p)) {
      var a := FromLevels(order, v);
      TableMeans(order, mask, p, v, a);
      AllBitsIs(n, a);
      AssignsUnique(order, v, a, ByLevel(order, a), a);
    }
  }

  lemma FromLevels(order: seq<nat>, v: seq<bool>) returns (a: seq<bool>)
    requires Permutation(order) && |v| == |order|
    ensures |a| == |order| && Assigns(order, v, a)
  {
    a := v;
    var j := 0;
    while j < |order|
      invariant j <= |order| && |a| == |order| && forall k | 0 <= k < j :: a[order[k]] == v[k]
    {
      a := a[order[j] := v[j]];
      j := j + 1;
    }
  }

  lemma CountModels(order: seq<nat>, mask: Mask, p: seq<bool> -> bool)
    requires Permutation(order) && Tabulates(order, mask, p) && |mask| == Pow2(|order|)
    ensures |Solutions(|order|, mask)| == |Models(|order|, p)|
  {
    hide Permutation, Tabulates, AllBits, Levels;
    LevelsSolve(order, mask, p);
    LevelsSize(order, Models(|order|, p));
  }

  method Compile(order: seq<nat>, p: seq<bool> -> bool)
      returns (nodes: seq<Node>, root: nat, nsol: nat, ghost mask: Mask)
    requires Permutation(order)
    ensures nsol == |Models(|order|, p)|
    ensures Compiled(order, p, nodes, root, mask) && nsol == nodes[root].2
    ensures |nodes| == |Below(0, |order|, mask)| + 2
  {
    hide Below;
    var m := RootMask(order, p);
    var b := new Builder(|order|);
    root := b.Build(0, m);
    assert {} + Below(0, |order|, m) == Below(0, |order|, m);
    assert |b.unique| == |b.unique.Keys|;
    nodes, nsol, mask := b.nodes, b.nodes[root].2, m;
    CountExact(nodes, root, |order|, mask);
    CountModels(order, mask, p);
  }

  /** unrank: the walk, level by level. */
  method Unrank(order: seq<nat>, nodes: seq<Node>, root: nat, rank: nat, ghost mask: Mask) returns (a: seq<bool>)
    requires Permutation(order) && StandsFor(nodes, root, |order|, mask) && rank < nodes[root].2
    ensures Assigns(order, Walk(nodes, root, |order|, mask, rank), a)
  {
    ghost var path := Walk(nodes, root, |order|, mask, rank);
    ghost var m := mask;
    a := seq(|order|, _ => false);
    var idx, left := root, rank;
    var level := 0;
    while level < |order|
      invariant level <= |order| && |a| == |order|
      invariant StandsFor(nodes, idx, |order| - level, m) && left < nodes[idx].2
      invariant path[level..] == Walk(nodes, idx, |order| - level, m, left)
      invariant forall k | 0 <= k < level :: a[order[k]] == path[k]
    {
      ghost var n: nat := |order| - level;
      var low := nodes[nodes[idx].0].2;
      assert path[level] == path[level..][0] && path[level + 1..] == path[level..][1..];
      if left < low {
        a := a[order[level] := false];
        idx := nodes[idx].0;
        m := Even(m);
      } else {
        a := a[order[level] := true];
        left := left - low;
        idx := nodes[idx].1;
        m := Odd(m);
      }
      level := level + 1;
    }
    // The walk ends at the true leaf.
    assert idx == 1;
  }

  /** Rank `r` unranks to the assignment `a`. */
  ghost predicate Unranks(order: seq<nat>, nodes: seq<Node>, root: nat, mask: Mask, r: nat, a: seq<bool>)
    requires StandsFor(nodes, root, |order|, mask)
  {
    r < nodes[root].2 && Assigns(order, Walk(nodes, root, |order|, mask, r), a)
  }

  /** Unranking maps the ranks below the count one-to-one onto the assignments that
      satisfy the predicate, in dictionary order of the levels. */
  lemma Bijection(order: seq<nat>, p: seq<bool> -> bool, nodes: seq<Node>, root: nat, mask: Mask)
    requires Permutation(order) && Compiled(order, p, nodes, root, mask)
    ensures forall a | |a| == |order| :: p(a) <==> exists r: nat :: Unranks(order, nodes, root, mask, r, a)
    ensures forall r: nat, r': nat | r < r' < nodes[root].2 ::
      Before(Walk(nodes, root, |order|, mask, r), Walk(nodes, root, |order|, mask, r'))
  {
    hide StandsFor, Permutation, Walk, Assigns, Tabulates, Before;
    InTable(nodes, root, |order|, mask);
    forall a | |a| == |order| ensures p(a) <==> exists r: nat :: Unranks(order, nodes, root, mask, r, a) {
      UnrankExact(order, p, nodes, root, mask, a);
    }
    forall r: nat, r': nat | r < r' < nodes[root].2
      ensures Before(Walk(nodes, root, |order|, mask, r), Walk(nodes, root, |order|, mask, r'))
    {
      WalkOrder(nodes, root, |order|, mask, r, r');
    }
  }

  lemma UnrankExact(order: seq<nat>, p: seq<bool> -> bool, nodes: seq<Node>, root: nat, mask: Mask, a: seq<bool>)
    requires Permutation(order) && Compiled(order, p, nodes, root, mask) && |a| == |order|
    ensures p(a) <==> exists r: nat :: Unranks(order, nodes, root, mask, r, a)
  {
    hide StandsFor, Permutation, Walk, Assigns, Tabulates;
    var v := ByLevel(order, a);
    TableMeans(order, mask, p, v, a);
    if p(a) {
      var r := WalkAll(nodes, root, |order|, mask, v);
      assert Unranks(order, nodes, root, mask, r, a);
    }
    forall r: nat | Unranks(order, nodes, root, mask, r, a) ensures p(a) {
      WalkSat(nodes, root, |order|, mask, r);
      TableMeans(order, mask, p, Walk(nodes, root, |order|, mask, r), a);
    }
  }
}

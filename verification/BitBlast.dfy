/** Terms lowered to gates, and conjunctions of atoms decided by the solver. */
module BitBlast {
  import opened Sets
  import opened Sat
  import opened Circuit
  import opened Cdcl
  import opened Trail
  import opened Search
  import opened Encoding
  import opened Frames
  import opened Decimal
  import opened Modular
  import opened BitVec
  import opened Terms
  import opened Transition

  // ---- names of bits ------------------------------------------------------------------

  function BitName(x: Name, i: nat): Name {
    x + ("[" + Digits(i) + "]")
  }

  lemma BitNameUnique(x: Name, i: nat, y: Name, j: nat)
    requires BitName(x, i) == BitName(y, j)
    ensures x == y && i == j
  {
    var s, a, b := BitName(x, i), Digits(i), Digits(j);
    var u, v := "[" + a + "]", "[" + b + "]";
    assert s == x + u && s == y + v && |u| == |a| + 2 && |v| == |b| + 2;
    assert s[|x|] == '[' && s[|y|] == '[';
    forall p | |x| < p < |s| ensures s[p] != '[' { After(x, i, p); }
    forall p | |y| < p < |s| ensures s[p] != '[' { After(y, j, p); }
    assert s[|x|..] == u && s[|y|..] == v;
    assert u[1..|u| - 1] == a && v[1..|v| - 1] == b;
    assert s[..|x|] == x && s[..|y|] == y;
    DigitsUnique(i, j);
  }

  lemma After(x: Name, i: nat, p: nat)
    requires |x| < p < |BitName(x, i)|
    ensures BitName(x, i)[p] != '['
  {
    var a := Digits(i);
    var k := p - |x| - 1;
    assert BitName(x, i)[p] == ("[" + a + "]")[k + 1];
    if k < |a| { assert a[k] in a; }
  }

  /** bv_var: one leaf for each bit of the word. */
  function BvVar(x: Name, w: nat): (bv: BV)
    ensures |bv| == w
  {
    seq(w, i requires 0 <= i < w => Leaf(BitName(x, i)))
  }

  /** bv_const. */
  function BvConst(c: int, w: nat): (bv: BV)
    ensures |bv| == w
  {
    seq(w, i requires 0 <= i < w => Sig.Const((c / Pow2(i)) % 2 == 1))
  }

  lemma {:induction false} NumConst(c: int, w: nat, e: Env)
    ensures Num(BvConst(c, w), e) == c % Pow2(w)
    decreases w
  {
    hide Num, Pow2;
    if w == 0 {
      NumNone(BvConst(c, w), e);
      ModOne(c);
    } else {
      var k := w - 1;
      NumConst(c, k, e);
      LastBit(c, k);
      NumAppend(BvConst(c, k), Sig.Const(HasBit(c, k)), e);
      Pow2Next(k);
      NextBit(c, Pow2(k));
    }
  }

  lemma ModOne(c: int)
    ensures c % Pow2(0) == 0
  {
  }

  lemma LastBit(c: int, k: nat)
    ensures BvConst(c, k + 1) == BvConst(c, k) + [Sig.Const(HasBit(c, k))]
  {
    hide Pow2;
  }

  lemma NextBit(c: int, p: int)
    requires p > 0
    ensures c % (2 * p) == c % p + (if (c / p) % 2 == 1 then p else 0)
  {
    var q, r := c / p, c % p;
    var h, b := q / 2, q % 2;
    assert c == p * q + r && q == 2 * h + b;
    assert p * q == (2 * p) * h + p * b by {
      Distribute(p, 2 * h, b);
      Associate(p, 2, h);
    }
    assert p * b == if b == 1 then p else 0;
    Remainder(c, 2 * p, h, r + p * b);
  }

  // ---- lower ---------------------------------------------------------------------------------

  /** The words a valuation of the bits gives; the arrays are any. */
  ghost function WordsOf(e: Env, w: nat, arrays: Name -> int -> int): Valuation {
    Valuation((x: Name) => Num(BvVar(x, w), e), arrays)
  }

  function VarNames(t: Term): set<Name>
    decreases t
  {
    match t
    case Var(x) => {x}
    case Const(_) => {}
    case Neg(a) => VarNames(a)
    case Add(ts) => set k, x | 0 <= k < |ts| && x in VarNames(ts[k]) :: x
    case Sub(a, b) => VarNames(a) + VarNames(b)
    case Mul(a, b) => VarNames(a) + VarNames(b)
    case Select(_, i) => VarNames(i)
  }

  ghost function BitNames(xs: set<Name>, w: nat): set<Name> {
    set x, i | x in xs && 0 <= i < w :: BitName(x, i)
  }

  /** Arithmetic with no empty sums, which lower cannot take. */
  predicate Lowerable(t: Term)
    decreases t
  {
    match t
    case Var(_) => true
    case Const(_) => true
    case Neg(a) => Lowerable(a)
    case Add(ts) => ts != [] && forall k | 0 <= k < |ts| :: Lowerable(ts[k])
    case Sub(a, b) => Lowerable(a) && Lowerable(b)
    case Mul(a, b) => Lowerable(a) && Lowerable(b)
    case Select(_, _) => false
  }

  /** The bits compute the term, whatever the leaves' values. */
  ghost predicate Computes(r: BV, t: Term, w: nat) {
    && |r| == w && Within(r, BitNames(VarNames(t), w))
    && forall e, arrays :: Num(r, e) == Val(t, WordsOf(e, w, arrays), w)
  }

  function Weight(t: Term): nat
    decreases t, 1
  {
    match t
    case Neg(a) => Weight(a) + 1
    case Add(ts) => WeightSum(t, |ts|) + 1
    case Sub(a, b) => Weight(a) + Weight(b) + 3
    case Mul(a, b) => Weight(a) + Weight(b) + 1
    case _ => 0
  }

  function WeightSum(t: Term, k: nat): (n: nat)
    requires t.Add? && k <= |t.terms|
    ensures forall j | 0 <= j < k :: Weight(t.terms[j]) <= n
    decreases t, 0, k
  {
    if k == 0 then 0 else WeightSum(t, k - 1) + Weight(t.terms[k - 1])
  }

  lemma WithinMore(r: BV, xs: set<Name>, ys: set<Name>, w: nat)
    requires Within(r, BitNames(xs, w)) && xs <= ys
    ensures Within(r, BitNames(ys, w))
  {
    assert BitNames(xs, w) <= BitNames(ys, w);
  }

  lemma LeavesWithin(x: Name, w: nat)
    ensures Within(BvVar(x, w), BitNames({x}, w))
  {
    forall k | 0 <= k < w ensures Support(BvVar(x, w)[k]) <= BitNames({x}, w) {
      assert Support(Leaf(BitName(x, k))) == {BitName(x, k)};
      assert x in {x} && 0 <= k < w;
    }
  }

  lemma ConstsWithin(c: int, w: nat, ns: set<Name>)
    ensures Within(BvConst(c, w), ns)
  {
  }

  lemma ValueOf(r: BV, t: Term, w: nat, e: Env, arrays: Name -> int -> int)
    requires Computes(r, t, w)
    ensures Num(r, e) == Val(t, WordsOf(e, w, arrays), w)
  {
  }

  lemma ComputesFrom(r: BV, t: Term, w: nat)
    requires |r| == w && Within(r, BitNames(VarNames(t), w))
    requires forall e, arrays :: Num(r, e) == Val(t, WordsOf(e, w, arrays), w)
    ensures Computes(r, t, w)
  {
  }

  lemma Reads(r: BV, t: Term, w: nat, ys: set<Name>)
    requires Computes(r, t, w) && VarNames(t) <= ys
    ensures Within(r, BitNames(ys, w))
  {
    WithinMore(r, VarNames(t), ys, w);
  }

  lemma NegComputes(q: BV, r: BV, a: Term, w: nat)
    requires Computes(q, a, w) && |r| == w && (forall e :: Num(r, e) == (-(Num(q, e) as int)) % Pow2(w))
    requires forall ns :: Within(q, ns) ==> Within(r, ns)
    ensures Computes(r, Neg(a), w)
  {
    hide Num, Within, Eval, Computes, WordsOf, BitNames;
    Reads(q, a, w, VarNames(a));
    forall e, arrays ensures Num(r, e) == Val(Neg(a), WordsOf(e, w, arrays), w) {
      ValueOf(q, a, w, e, arrays);
    }
    ComputesFrom(r, Neg(a), w);
  }

  lemma MulComputes(q1: BV, q2: BV, r: BV, a: Term, b: Term, w: nat)
    requires Computes(q1, a, w) && Computes(q2, b, w) && |r| == w
    requires forall e :: Num(r, e) == (Num(q1, e) * Num(q2, e)) % Pow2(w)
    requires forall ns :: Within(q1, ns) && Within(q2, ns) ==> Within(r, ns)
    ensures Computes(r, Mul(a, b), w)
  {
    hide Num, Within, Eval, Computes, WordsOf, BitNames, Val, Pow2;
    Reads(q1, a, w, VarNames(a) + VarNames(b));
    Reads(q2, b, w, VarNames(a) + VarNames(b));
    forall e, arrays ensures Num(r, e) == Val(Mul(a, b), WordsOf(e, w, arrays), w) {
      ValueOf(q1, a, w, e, arrays);
      ValueOf(q2, b, w, e, arrays);
      ProductVal(a, b, WordsOf(e, w, arrays), w, Num(q1, e), Num(q2, e));
    }
    ComputesFrom(r, Mul(a, b), w);
  }

  lemma ProductVal(a: Term, b: Term, v: Valuation, w: nat, x: int, y: int)
    requires x == Val(a, v, w) && y == Val(b, v, w)
    ensures Val(Mul(a, b), v, w) == (x * y) % Pow2(w)
  {
  }

  lemma SubComputes(r: BV, a: Term, b: Term, w: nat)
    requires Computes(r, Add([a, Neg(b)]), w)
    ensures Computes(r, Sub(a, b), w)
  {
    var t := Add([a, Neg(b)]);
    assert t.terms[0] == a && t.terms[1] == Neg(b);
    assert VarNames(t) <= VarNames(a) + VarNames(b);
    WithinMore(r, VarNames(t), VarNames(a) + VarNames(b), w);
    hide Num, Within;
    forall e, arrays ensures Num(r, e) == Val(Sub(a, b), WordsOf(e, w, arrays), w) {
      SumOfTwo(a, b, WordsOf(e, w, arrays), w);
    }
  }

  lemma SumOfTwo(a: Term, b: Term, v: Valuation, w: nat)
    ensures Val(Add([a, Neg(b)]), v, w) == Val(Sub(a, b), v, w)
  {
    var t := Add([a, Neg(b)]);
    assert SumVal(t, 2, v, w) == SumVal(t, 1, v, w) + Val(Neg(b), v, w)
        && SumVal(t, 1, v, w) == SumVal(t, 0, v, w) + Val(a, v, w);
    CongMod(-Val(b, v, w), Pow2(w));
    CongAdd(Val(a, v, w), Val(a, v, w), -Val(b, v, w) % Pow2(w), -Val(b, v, w), Pow2(w));
  }

  /** The first `k` summands so far. */
  ghost predicate ComputesSum(r: BV, t: Term, k: nat, w: nat)
    requires t.Add? && k <= |t.terms|
  {
    && |r| == w && Within(r, BitNames(VarNames(t), w))
    && forall e, arrays :: Num(r, e) == SumVal(t, k, WordsOf(e, w, arrays), w) % Pow2(w)
  }

  lemma FirstSummand(r: BV, t: Term, w: nat)
    requires t.Add? && t.terms != [] && Computes(r, t.terms[0], w)
    ensures ComputesSum(r, t, 1, w)
  {
    assert VarNames(t.terms[0]) <= VarNames(t);
    WithinMore(r, VarNames(t.terms[0]), VarNames(t), w);
    hide Num, Within;
    forall e, arrays ensures Num(r, e) == SumVal(t, 1, WordsOf(e, w, arrays), w) % Pow2(w) {
      var v := WordsOf(e, w, arrays);
      assert SumVal(t, 1, v, w) == SumVal(t, 0, v, w) + Val(t.terms[0], v, w);
      Remainder(Val(t.terms[0], v, w), Pow2(w), 0, Val(t.terms[0], v, w));
    }
  }

  lemma NextSummand(q: BV, x: BV, r: BV, t: Term, k: nat, w: nat)
    requires t.Add? && k < |t.terms| && ComputesSum(q, t, k, w) && Computes(x, t.terms[k], w) && |r| == w
    requires forall e :: Num(r, e) == (Num(q, e) + Num(x, e)) % Pow2(w)
    requires forall ns :: Within(q, ns) && Within(x, ns) ==> Within(r, ns)
    ensures ComputesSum(r, t, k + 1, w)
  {
    hide Num, Within, Eval, Computes, ComputesSum, WordsOf, BitNames;
    assert VarNames(t.terms[k]) <= VarNames(t);
    Reads(x, t.terms[k], w, VarNames(t));
    SumParts(q, t, k, w);
    forall e, arrays ensures Num(r, e) == SumVal(t, k + 1, WordsOf(e, w, arrays), w) % Pow2(w) {
      var v := WordsOf(e, w, arrays);
      SumAt(q, t, k, w, e, arrays);
      ValueOf(x, t.terms[k], w, e, arrays);
      AddReduced(SumVal(t, k, v, w), Num(x, e), Pow2(w));
    }
    SumFrom(r, t, k + 1, w);
  }

  lemma AddReduced(s: int, x: int, m: int)
    requires m > 0
    ensures (s % m + x) % m == (s + x) % m
  {
    CongMod(s, m);
    CongAdd(s % m, s, x, x, m);
  }

  lemma SumParts(q: BV, t: Term, k: nat, w: nat)
    requires t.Add? && k <= |t.terms| && ComputesSum(q, t, k, w)
    ensures Within(q, BitNames(VarNames(t), w))
  {
  }

  lemma SumAt(q: BV, t: Term, k: nat, w: nat, e: Env, arrays: Name -> int -> int)
    requires t.Add? && k <= |t.terms| && ComputesSum(q, t, k, w)
    ensures Num(q, e) == SumVal(t, k, WordsOf(e, w, arrays), w) % Pow2(w)
  {
  }

  lemma SumFrom(r: BV, t: Term, k: nat, w: nat)
    requires t.Add? && k <= |t.terms| && |r| == w && Within(r, BitNames(VarNames(t), w))
    requires forall e, arrays :: Num(r, e) == SumVal(t, k, WordsOf(e, w, arrays), w) % Pow2(w)
    ensures ComputesSum(r, t, k, w)
  {
  }

  lemma VarComputes(x: Name, w: nat)
    ensures Computes(BvVar(x, w), Var(x), w)
  {
    LeavesWithin(x, w);
    forall e, arrays ensures Num(BvVar(x, w), e) == Val(Var(x), WordsOf(e, w, arrays), w) {
      Remainder(Num(BvVar(x, w), e), Pow2(w), 0, Num(BvVar(x, w), e));
    }
  }

  lemma ConstComputes(c: int, w: nat)
    ensures Computes(BvConst(c, w), Term.Const(c), w)
  {
    ConstsWithin(c, w, BitNames({}, w));
    forall e ensures Num(BvConst(c, w), e) == c % Pow2(w) { NumConst(c, w, e); }
  }

  /** lower. */
  method Lower(t: Term, w: nat) returns (r: BV)
    requires Lowerable(t)
    ensures Computes(r, t, w)
    decreases Weight(t), t, 1
  {
    hide Computes, Num, Eval, Within;
    match t
    case Const(c) =>
      r := BvConst(c, w);
      ConstComputes(c, w);
    case Var(x) =>
      r := BvVar(x, w);
      VarComputes(x, w);
    case Neg(a) =>
      var q := Lower(a, w);
      ComputesWidth(q, a, w);
      r := BvNeg(q);
      NegComputes(q, r, a, w);
    case Sub(a, b) =>
      SubLighter(a, b);
      r := Lower(Add([a, Neg(b)]), w);
      SubComputes(r, a, b, w);
    case Add(ts) =>
      r := LowerSum(t, w);
    case Mul(a, b) =>
      var q1 := Lower(a, w);
      var q2 := Lower(b, w);
      r := BvMul(q1, q2, w);
      MulComputes(q1, q2, r, a, b, w);
  }

  lemma ComputesWidth(r: BV, t: Term, w: nat)
    requires Computes(r, t, w)
    ensures |r| == w
  {
  }

  method LowerSum(t: Term, w: nat) returns (r: BV)
    requires t.Add? && Lowerable(t)
    ensures Computes(r, t, w)
    decreases Weight(t), t, 0
  {
    hide Computes, ComputesSum, Num, Eval, Within;
    ArgLighter(t, 0);
    r := Lower(t.terms[0], w);
    FirstSummand(r, t, w);
    var k := 1;
    while k < |t.terms|
      invariant 1 <= k <= |t.terms| && ComputesSum(r, t, k, w)
    {
      ArgLighter(t, k);
      var x := Lower(t.terms[k], w);
      var q := r;
      r := BvAdd(q, x, w);
      NextSummand(q, x, r, t, k, w);
      k := k + 1;
    }
    AllSummands(r, t, w);
  }

  lemma AllSummands(r: BV, t: Term, w: nat)
    requires t.Add? && ComputesSum(r, t, |t.terms|, w)
    ensures Computes(r, t, w)
  {
  }

  lemma ArgLighter(t: Term, k: nat)
    requires t.Add? && k < |t.terms|
    ensures Weight(t.terms[k]) < Weight(t)
  {
  }

  lemma SubLighter(a: Term, b: Term)
    ensures Weight(Add([a, Neg(b)])) < Weight(Sub(a, b))
  {
    var t := Add([a, Neg(b)]);
    assert WeightSum(t, 2) == WeightSum(t, 1) + Weight(Neg(b)) && WeightSum(t, 1) == WeightSum(t, 0) + Weight(a);
  }

  // ---- the miter --------------------------------------------------------------------------------

  lemma {:induction false} NumInjective(a: BV, b: BV, e: Env)
    requires |a| == |b|
    ensures Num(a, e) == Num(b, e) <==> forall k | 0 <= k < |a| :: Eval(a[k], e) == Eval(b[k], e)
    decreases |a|
  {
    if a != [] {
      var k := |a| - 1;
      NumInjective(a[..k], b[..k], e);
      assert forall j | 0 <= j < k :: a[..k][j] == a[j] && b[..k][j] == b[j];
      assert Num(a[..k], e) < Pow2(k) && Num(b[..k], e) < Pow2(k);
    }
  }

  /** The outputs differ in some bit. */
  method Differ(a: BV, b: BV) returns (d: Sig)
    requires |a| == |b|
    ensures forall e :: Eval(d, e) <==> Num(a, e) != Num(b, e)
    ensures forall ns :: Within(a, ns) && Within(b, ns) ==> Support(d) <= ns
  {
    hide Num, Eval, Support;
    var xs: seq<Sig> := [];
    while |xs| < |a|
      invariant |xs| <= |a| && forall k, e | 0 <= k < |xs| :: Eval(xs[k], e) == (Eval(a[k], e) != Eval(b[k], e))
      invariant forall ns :: Within(a, ns) && Within(b, ns) ==> Within(xs, ns)
    {
      var k := |xs|;
      xs := xs + [XOR(a[k], b[k])];
    }
    d := OR(xs);
    forall e ensures Circuit.Some(xs, e) <==> Num(a, e) != Num(b, e) {
      NumInjective(a, b, e);
    }
  }

  // ---- reading words back -------------------------------------------------------------------------

  /** Bit `i` of the number. */
  predicate HasBit(n: int, i: nat) {
    (n / Pow2(i)) % 2 == 1
  }

  /** The valuation of the bit names that gives the words `v`. */
  ghost function EnvOfWords(v: Valuation, xs: set<Name>, w: nat): Env {
    set x, i | x in xs && 0 <= i < w && HasBit(v.words(x), i) :: BitName(x, i)
  }

  lemma WordBits(v: Valuation, xs: set<Name>, w: nat, x: Name)
    requires x in xs
    ensures Num(BvVar(x, w), EnvOfWords(v, xs, w)) == v.words(x) % Pow2(w)
  {
    var e := EnvOfWords(v, xs, w);
    NumConst(v.words(x), w, e);
    forall i | 0 <= i < w ensures Eval(BvVar(x, w)[i], e) == Eval(BvConst(v.words(x), w)[i], e) {
      if BitName(x, i) in e {
        var y, j :| y in xs && 0 <= j < w && HasBit(v.words(y), j) && BitName(y, j) == BitName(x, i);
        BitNameUnique(y, j, x, i);
      }
      assert HasBit(v.words(x), i) ==> BitName(x, i) in e;
    }
    NumInjective(BvVar(x, w), BvConst(v.words(x), w), e);
  }

  /** A term's value depends on its variables' residues only. */
  lemma {:induction false} ValSame(t: Term, v: Valuation, v': Valuation, w: nat)
    requires Lowerable(t) && forall x | x in VarNames(t) :: v.words(x) % Pow2(w) == v'.words(x) % Pow2(w)
    ensures Val(t, v, w) == Val(t, v', w)
    decreases t
  {
    match t
    case Neg(a) => ValSame(a, v, v', w);
    case Add(ts) =>
      forall k | 0 <= k < |ts| ensures Val(ts[k], v, w) == Val(ts[k], v', w) {
        assert VarNames(ts[k]) <= VarNames(t);
        ValSame(ts[k], v, v', w);
      }
      SumSame(t, |ts|, v, v', w);
    case Sub(a, b) =>
      ValSame(a, v, v', w);
      ValSame(b, v, v', w);
    case Mul(a, b) =>
      ValSame(a, v, v', w);
      ValSame(b, v, v', w);
    case Var(x) => assert x in VarNames(t);
    case Const(_) =>
  }

  lemma {:induction false} SumSame(t: Term, k: nat, v: Valuation, v': Valuation, w: nat)
    requires t.Add? && k <= |t.terms| && forall j | 0 <= j < k :: Val(t.terms[j], v, w) == Val(t.terms[j], v', w)
    ensures SumVal(t, k, v, w) == SumVal(t, k, v', w)
    decreases k
  {
    if k > 0 {
      SumSame(t, k - 1, v, v', w);
    }
  }

  /** Arrays that do not matter. */
  ghost function NoArrays(): Name -> int -> int {
    (x: Name) => (j: int) => 0
  }

  predicate AtomOk(a: Eq) {
    Lowerable(a.t1) && Lowerable(a.t2)
  }

  function AtomNames(a: Eq): set<Name> {
    VarNames(a.t1) + VarNames(a.t2)
  }

  /** Does the atom hold for the words that the bits of `e` spell? */
  ghost predicate HoldsIn(a: Eq, e: Env, w: nat) {
    Holds(a, WordsOf(e, w, NoArrays()), w)
  }

  ghost predicate Matches(atoms: seq<Eq>, assign: seq<bool>, v: Valuation, w: nat)
    requires |assign| == |atoms|
  {
    forall i | 0 <= i < |atoms| :: Holds(atoms[i], v, w) == assign[i]
  }

  /** Valuations of the bits under which the first `k` atoms are as assigned. */
  ghost function Fits(atoms: seq<Eq>, assign: seq<bool>, k: nat, ns: set<Name>, w: nat): iset<seq<Env>>
    requires k <= |atoms| == |assign|
  {
    iset tr: seq<Env> | |tr| == 1 && tr[0] <= ns && forall i | 0 <= i < k :: HoldsIn(atoms[i], tr[0], w) == assign[i]
  }

  /** The names of the bits of the words `xs`, listed. */
  method ListBits(xs: set<Name>, w: nat) returns (bits: seq<Name>)
    ensures Distinct(bits) && Frames.NameSet(bits) == BitNames(xs, w)
  {
    hide BitName;
    bits := [];
    var rest := xs;
    while rest != {}
      invariant rest <= xs && Distinct(bits) && forall n :: n in bits <==> n in BitNames(xs - rest, w)
      decreases rest
    {
      ghost var pick := Pick(rest);
      var x :| x in rest;
      bits := ListWord(bits, x, w, xs - rest);
      assert xs - rest + {x} == xs - (rest - {x});
      rest := rest - {x};
    }
    assert xs - rest == xs;
  }

  method ListWord(bits0: seq<Name>, x: Name, w: nat, ghost done: set<Name>) returns (bits: seq<Name>)
    requires Distinct(bits0) && x !in done && forall n :: n in bits0 <==> n in BitNames(done, w)
    ensures Distinct(bits) && forall n :: n in bits <==> n in BitNames(done + {x}, w)
  {
    hide BitName;
    bits := bits0;
    var i := 0;
    while i < w
      invariant 0 <= i <= w && Distinct(bits)
      invariant forall n :: n in bits <==> n in BitNames(done, w) || exists j :: 0 <= j < i && n == BitName(x, j)
    {
      var n := BitName(x, i);
      NewBit(done, x, i, w);
      bits := bits + [n];
      i := i + 1;
    }
  }

  lemma NewBit(done: set<Name>, x: Name, i: nat, w: nat)
    requires x !in done
    ensures BitName(x, i) !in BitNames(done, w)
    ensures forall j: nat | j < i :: BitName(x, j) != BitName(x, i)
  {
    forall y, j: nat | y in done && j < w ensures BitName(y, j) != BitName(x, i) {
      if BitName(y, j) == BitName(x, i) { BitNameUnique(y, j, x, i); }
    }
    forall j: nat | j < i ensures BitName(x, j) != BitName(x, i) {
      if BitName(x, j) == BitName(x, i) { BitNameUnique(x, j, x, i); }
    }
  }

  /** Add the literal of the miter of atom `k`, as assigned. */
  method AssertAtom(s: Solver, fr0: Frame, atoms: seq<Eq>, assign: seq<bool>, k: nat, w: nat, ghost xs: set<Name>)
    returns (fr: Frame)
    requires k < |atoms| == |assign| && AtomOk(atoms[k]) && AtomNames(atoms[k]) <= xs
    requires fr0.lits.Keys == BitNames(xs, w) && Ok(s, [fr0], Fits(atoms, assign, k, fr0.lits.Keys, w))
    modifies s
    ensures fr.lits == fr0.lits && Ok(s, [fr], Fits(atoms, assign, k + 1, fr.lits.Keys, w))
  {
    hide Ok, Fits, Having, Computes, Num, Within, BitNames;
    var a := Lower(atoms[k].t1, w);
    var b := Lower(atoms[k].t2, w);
    ComputesWidth(a, atoms[k].t1, w);
    ComputesWidth(b, atoms[k].t2, w);
    Reads(a, atoms[k].t1, w, xs);
    Reads(b, atoms[k].t2, w, xs);
    var d := Differ(a, b);
    MiterSays(atoms, assign, k, fr0.lits.Keys, w, a, b, d);
    var frames := AssertSig(s, [fr0], 0, d, !assign[k], Fits(atoms, assign, k, fr0.lits.Keys, w));
    fr := frames[0];
    assert frames == [fr];
  }

  lemma MiterSays(atoms: seq<Eq>, assign: seq<bool>, k: nat, ns: set<Name>, w: nat, a: BV, b: BV, d: Sig)
    requires k < |atoms| == |assign| && Computes(a, atoms[k].t1, w) && Computes(b, atoms[k].t2, w)
    requires forall e :: Eval(d, e) <==> Num(a, e) != Num(b, e)
    ensures Having(Fits(atoms, assign, k, ns, w), 0, d, !assign[k]) == Fits(atoms, assign, k + 1, ns, w)
  {
    hide Num, Eval, Computes, Holds;
    var have, fits := Having(Fits(atoms, assign, k, ns, w), 0, d, !assign[k]), Fits(atoms, assign, k + 1, ns, w);
    forall e ensures Eval(d, e) <==> !HoldsIn(atoms[k], e, w) {
      MiterAt(atoms[k], a, b, e, w);
    }
    forall tr: seq<Env> ensures tr in have <==> tr in fits {}
    assert have == fits;
  }

  lemma MiterAt(at: Eq, a: BV, b: BV, e: Env, w: nat)
    requires Computes(a, at.t1, w) && Computes(b, at.t2, w)
    ensures Num(a, e) == Num(b, e) <==> HoldsIn(at, e, w)
  {
    hide Num, Eval, Val;
    ValueOf(a, at.t1, w, e, NoArrays());
    ValueOf(b, at.t2, w, e, NoArrays());
  }

  method AllNames(atoms: seq<Eq>) returns (xs: set<Name>)
    ensures forall k | 0 <= k < |atoms| :: AtomNames(atoms[k]) <= xs
    ensures forall x | x in xs :: exists k :: 0 <= k < |atoms| && x in AtomNames(atoms[k])
  {
    hide VarNames;
    xs := {};
    var i := 0;
    while i < |atoms|
      invariant i <= |atoms| && forall k | 0 <= k < i :: AtomNames(atoms[k]) <= xs
      invariant forall x | x in xs :: exists k :: 0 <= k < i && x in AtomNames(atoms[k])
    {
      xs := xs + AtomNames(atoms[i]);
      i := i + 1;
    }
  }

  /** A value of the width for every word of the atoms. */
  ghost predicate WitnessOf(atoms: seq<Eq>, wit: map<Name, nat>, w: nat) {
    && (forall x :: x in wit <==> exists k :: 0 <= k < |atoms| && x in AtomNames(atoms[k]))
    && forall x | x in wit :: wit[x] < Pow2(w)
  }

  /** The valuation a witness stands for. */
  function OfWitness(wit: map<Name, nat>): Valuation {
    Valuation((x: Name) => if x in wit then wit[x] else 0, (x: Name) => (j: int) => 0)
  }

  /** The value of a word from the bits that are set. */
  method ReadWord(e: Env, x: Name, w: nat) returns (n: nat)
    ensures n == Num(BvVar(x, w), e)
  {
    n := 0;
    var i := 0;
    assert BvVar(x, w)[..0] == [];
    while i < w
      invariant 0 <= i <= w && n == Num(BvVar(x, w)[..i], e)
    {
      assert BvVar(x, w)[..i + 1] == BvVar(x, w)[..i] + [Leaf(BitName(x, i))];
      NumAppend(BvVar(x, w)[..i], Leaf(BitName(x, i)), e);
      if BitName(x, i) in e {
        n := n + Pow2(i);
      }
      i := i + 1;
    }
    assert BvVar(x, w)[..w] == BvVar(x, w);
  }

  method ReadWords(e: Env, xs: set<Name>, w: nat) returns (wit: map<Name, nat>)
    ensures wit.Keys == xs && forall x | x in xs :: wit[x] == Num(BvVar(x, w), e)
  {
    hide Num, BvVar;
    wit := map[];
    var rest := xs;
    while rest != {}
      invariant rest <= xs && wit.Keys == xs - rest && forall x | x in wit :: wit[x] == Num(BvVar(x, w), e)
      decreases rest
    {
      ghost var pick := Pick(rest);
      var x :| x in rest;
      var n := ReadWord(e, x, w);
      wit := wit[x := n];
      rest := rest - {x};
    }
  }

  /** A fresh solver with one variable for each bit. */
  method BitSolver(xs: set<Name>, w: nat) returns (s: Solver, fr: Frame, bits: seq<Name>)
    ensures fresh(s) && fr.lits.Keys == BitNames(xs, w) == Frames.NameSet(bits) && Positive(fr)
    ensures Ok(s, [fr], Extended(iset{[]}, 0, BitNames(xs, w)))
  {
    hide TrueOk, FramesOk, Shows, BitNames, Solver.Valid;
    s := new Solver();
    OkEmpty(s);
    bits := ListBits(xs, w);
    ghost var n := s.nVars;
    s.ClausesOk();
    OkParts(s, [], iset{[]});
    var lits := FreshVars(s, bits, map[]);
    fr := Frame(lits, map[]);
    ShowsFresh(s.formula, n, s.nVars, [], iset{[]}, lits);
    assert [] + [fr] == [fr];
    NoTrue(s.formula, s.nVars);
  }

  lemma NoTrue(f: seq<seq<int>>, n: nat)
    ensures TrueOk(f, n, 0)
  {
  }

  /** _bitblast_all: is the conjunction of all the atoms, as assigned, satisfiable? */
  method BitblastAll(atoms: seq<Eq>, assign: seq<bool>, w: nat) returns (r: Option<map<Name, nat>>)
    requires |assign| == |atoms| && forall k | 0 <= k < |atoms| :: AtomOk(atoms[k])
    ensures r.Some? ==> Matches(atoms, assign, OfWitness(r.value), w) && WitnessOf(atoms, r.value, w)
    ensures r.None? ==> forall v :: !Matches(atoms, assign, v, w)
  {
    hide Ok, Fits, Holds, Matches, AtomOk, AtomNames, BitNames, Extended;
    var xs := AllNames(atoms);
    var s, fr, bits := BitSolver(xs, w);
    NoneAsserted(atoms, assign, fr.lits.Keys, w);
    var k := 0;
    while k < |atoms|
      invariant k <= |atoms| && fr.lits.Keys == BitNames(xs, w) && Positive(fr)
      invariant Ok(s, [fr], Fits(atoms, assign, k, fr.lits.Keys, w))
    {
      fr := AssertAtom(s, fr, atoms, assign, k, w, xs);
      k := k + 1;
    }
    var sat := Check(s, [fr], Fits(atoms, assign, |atoms|, fr.lits.Keys, w));
    if sat {
      var e := ReadFrame(s, fr, bits);
      var wit := ReadWords(e, xs, w);
      FoundWitness(atoms, assign, xs, w, View(TrueVars(s.A()), [fr]), e, fr, TrueVars(s.A()), wit);
      WordsWitness(atoms, xs, e, w, wit);
      r := Some(wit);
    } else {
      r := None;
      forall v ensures !Matches(atoms, assign, v, w) {
        NoValuation(atoms, assign, xs, w, v);
      }
    }
  }

  lemma WordsWitness(atoms: seq<Eq>, xs: set<Name>, e: Env, w: nat, wit: map<Name, nat>)
    requires forall k | 0 <= k < |atoms| :: AtomNames(atoms[k]) <= xs
    requires forall x | x in xs :: exists k :: 0 <= k < |atoms| && x in AtomNames(atoms[k])
    requires wit.Keys == xs && forall x | x in xs :: wit[x] == Num(BvVar(x, w), e)
    ensures WitnessOf(atoms, wit, w)
  {
    hide Num, AtomNames, Pow2;
    forall x | x in wit ensures wit[x] < Pow2(w) { NumBound(BvVar(x, w), e); }
    forall x ensures x in wit <==> exists k :: 0 <= k < |atoms| && x in AtomNames(atoms[k]) {}
  }

  lemma NoneAsserted(atoms: seq<Eq>, assign: seq<bool>, ns: set<Name>, w: nat)
    requires |assign| == |atoms|
    ensures Extended(iset{[]}, 0, ns) == Fits(atoms, assign, 0, ns, w)
  {
    forall tr: seq<Env> ensures tr in Extended(iset{[]}, 0, ns) <==> tr in Fits(atoms, assign, 0, ns, w) {
      if |tr| == 1 { assert tr[..0] == []; }
    }
  }

  /** An atom over the words `xs` holds alike for the bits and for the witness read off them. */
  lemma WitnessHolds(at: Eq, xs: set<Name>, e: Env, w: nat, v: Valuation)
    requires AtomOk(at) && AtomNames(at) <= xs
    requires forall x | x in xs :: v.words(x) % Pow2(w) == Num(BvVar(x, w), e)
    ensures Holds(at, v, w) <==> HoldsIn(at, e, w)
  {
    hide Num, BvVar, VarNames, Lowerable;
    var u := WordsOf(e, w, NoArrays());
    forall x | x in xs ensures v.words(x) % Pow2(w) == u.words(x) % Pow2(w) {
      WordSmall(x, e, w);
    }
    ValSame(at.t1, v, u, w);
    ValSame(at.t2, v, u, w);
  }

  lemma WordSmall(x: Name, e: Env, w: nat)
    ensures Num(BvVar(x, w), e) % Pow2(w) == Num(BvVar(x, w), e)
  {
    Remainder(Num(BvVar(x, w), e), Pow2(w), 0, Num(BvVar(x, w), e));
  }

  lemma FoundWitness(atoms: seq<Eq>, assign: seq<bool>, xs: set<Name>, w: nat, tr: seq<Env>, e: Env, fr: Frame,
      m: Model,
                     wit: map<Name, nat>)
    requires |assign| == |atoms| && (forall k | 0 <= k < |atoms| :: AtomOk(atoms[k]) && AtomNames(atoms[k]) <= xs)
    requires fr.lits.Keys == BitNames(xs, w) && tr == View(m, [fr])
        && tr in Fits(atoms, assign, |atoms|, fr.lits.Keys, w)
    requires e == EnvOf(m, fr.lits) * fr.lits.Keys
    requires wit.Keys == xs && forall x | x in xs :: wit[x] == Num(BvVar(x, w), e)
    ensures Matches(atoms, assign, OfWitness(wit), w)
  {
    hide Num, BvVar, AtomOk, AtomNames, BitNames, Holds, HoldsIn;
    assert tr[0] == e;
    forall x | x in xs ensures OfWitness(wit).words(x) % Pow2(w) == Num(BvVar(x, w), e) {
      WordSmall(x, e, w);
    }
    forall i | 0 <= i < |atoms| ensures Holds(atoms[i], OfWitness(wit), w) == assign[i] {
      WitnessHolds(atoms[i], xs, e, w, OfWitness(wit));
    }
  }

  lemma NoValuation(atoms: seq<Eq>, assign: seq<bool>, xs: set<Name>, w: nat, v: Valuation)
    requires |assign| == |atoms| && (forall k | 0 <= k < |atoms| :: AtomOk(atoms[k]) && AtomNames(atoms[k]) <= xs)
    requires Fits(atoms, assign, |atoms|, BitNames(xs, w), w) == iset{}
    ensures !Matches(atoms, assign, v, w)
  {
    hide Num, BvVar, AtomOk, AtomNames, Holds, HoldsIn;
    var e := EnvOfWords(v, xs, w);
    forall x | x in xs ensures v.words(x) % Pow2(w) == Num(BvVar(x, w), e) { WordBits(v, xs, w, x); }
    assert e <= BitNames(xs, w);
    forall i | 0 <= i < |atoms| ensures Holds(atoms[i], v, w) == HoldsIn(atoms[i], e, w) {
      WitnessHolds(atoms[i], xs, e, w, v);
    }
    assert [e] !in Fits(atoms, assign, |atoms|, BitNames(xs, w), w);
  }
}

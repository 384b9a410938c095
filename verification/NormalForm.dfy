/** Polynomial normal form mod 2^w: a sum of coefficients times sorted monomials. */
module NormalForm {
  import opened Sets
  import opened Circuit
  import opened Modular
  import opened Terms
  import opened Coefficients

  // ---- monomials ----------------------------------------------------------------------

  /** The product of the variables. */
  function MonoVal(m: Mono, v: Valuation, w: nat): nat {
    if m == [] then 1 else (v.words(m[0]) % Pow2(w)) * MonoVal(m[1..], v, w)
  }

  lemma SwapFactors(x: nat, y: nat, z: nat)
    ensures x * (y * z) == y * (x * z)
  {
  }

  lemma {:induction false} InsertVal(x: Name, m: Mono, v: Valuation, w: nat)
    ensures MonoVal(Insert(x, m), v, w) == (v.words(x) % Pow2(w)) * MonoVal(m, v, w)
    decreases |m|
  {
    var vx := v.words(x) % Pow2(w);
    if m == [] || !NameLess(m[0], x) {
      assert ([x] + m)[1..] == m;
    } else {
      InsertVal(x, m[1..], v, w);
      assert ([m[0]] + Insert(x, m[1..]))[1..] == Insert(x, m[1..]);
      SwapFactors(v.words(m[0]) % Pow2(w), vx, MonoVal(m[1..], v, w));
    }
  }

  lemma {:induction false} SortedVal(m: Mono, v: Valuation, w: nat)
    ensures MonoVal(Sorted(m), v, w) == MonoVal(m, v, w)
    decreases |m|
  {
    if m != [] {
      SortedVal(m[1..], v, w);
      InsertVal(m[0], Sorted(m[1..]), v, w);
    }
  }

  lemma {:induction false} ConcatVal(a: Mono, b: Mono, v: Valuation, w: nat)
    ensures MonoVal(a + b, v, w) == MonoVal(a, v, w) * MonoVal(b, v, w)
    decreases |a|
  {
    if a == [] {
      assert a + b == b;
    } else {
      assert (a + b)[1..] == a[1..] + b;
      ConcatVal(a[1..], b, v, w);
      Associate(v.words(a[0]) % Pow2(w), MonoVal(a[1..], v, w), MonoVal(b, v, w));
    }
  }

  // ---- sums over a polynomial's monomials ---------------------------------------------------

  ghost function Sum(ms: set<Mono>, p: Poly, v: Valuation, w: nat): nat
    requires ms <= p.Keys
    decreases |ms|
  {
    if ms == {} then 0
    else
      var m := Pick(ms);
      p[m] * MonoVal(m, v, w) + Sum(ms - {m}, p, v, w)
  }

  /** Any monomial may be taken out first. */
  lemma {:induction false} SumOut(ms: set<Mono>, p: Poly, m: Mono, v: Valuation, w: nat)
    requires ms <= p.Keys && m in ms
    ensures Sum(ms, p, v, w) == p[m] * MonoVal(m, v, w) + Sum(ms - {m}, p, v, w)
    decreases |ms|
  {
    var x := Pick(ms);
    if x != m {
      SumOut(ms - {x}, p, m, v, w);
      SumOut(ms - {m}, p, x, v, w);
      assert ms - {x} - {m} == ms - {m} - {x};
    }
  }

  lemma {:induction false} SumSame(ms: set<Mono>, p: Poly, q: Poly, v: Valuation, w: nat)
    requires ms <= p.Keys && ms <= q.Keys && forall m | m in ms :: p[m] == q[m]
    ensures Sum(ms, p, v, w) == Sum(ms, q, v, w)
    decreases |ms|
  {
    if ms != {} {
      SumSame(ms - {Pick(ms)}, p, q, v, w);
    }
  }

  ghost function PolyVal(p: Poly, v: Valuation, w: nat): nat {
    Sum(p.Keys, p, v, w)
  }

  lemma MoreOf(c0: nat, c: nat, x: nat, s: nat, m: int)
    requires m > 0
    ensures Cong(((c0 + c) % m) * x + s, c0 * x + s + c * x, m)
  {
    CongMod(c0 + c, m);
    CongScale((c0 + c) % m, c0 + c, x, m);
    CongAdd(((c0 + c) % m) * x, (c0 + c) * x, s, s, m);
    Distribute(x, c0, c);
  }

  /** Accumulating a coefficient adds its monomial's value, mod 2^w. */
  lemma Accumulate(p: Poly, m: Mono, c: nat, v: Valuation, w: nat)
    ensures Cong(PolyVal(p[m := (Coeff(p, m) + c) % Pow2(w)], v, w), PolyVal(p, v, w) + c * MonoVal(m, v, w), Pow2(w))
  {
    hide Cong, MonoVal, Pow2;
    var p' := p[m := (Coeff(p, m) + c) % Pow2(w)];
    var rest := p.Keys - {m};
    assert p'.Keys - {m} == rest;
    SumOut(p'.Keys, p', m, v, w);
    SumSame(rest, p', p, v, w);
    if m in p {
      SumOut(p.Keys, p, m, v, w);
    } else {
      assert rest == p.Keys;
    }
    MoreOf(Coeff(p, m), c, MonoVal(m, v, w), Sum(rest, p, v, w), Pow2(w));
  }

  // ---- negation and dropping zeros ------------------------------------------------------------

  function Negated(p: Poly, w: nat): Poly {
    map m | m in p :: -(p[m] as int) % Pow2(w)
  }

  lemma NegatedIs(q: Poly, a: Term, w: nat)
    requires Tables(q, a, w)
    ensures Tables(Negated(q, w), Neg(a), w)
  {
    hide Tables;
    NegTables(Negated(q, w), q, a, w);
  }

  lemma NegatedTerm(c: nat, x: nat, s: int, t: int, m: int)
    requires m > 0 && Cong(s, -t, m)
    ensures Cong((-(c as int) % m) * x + s, -(c * x + t), m)
  {
    var n: int := -(c as int);
    CongMod(n, m);
    CongScale(n % m, n, x, m);
    CongAdd((n % m) * x, n * x, s, -t, m);
    assert n * x == -((c as int) * x);
  }

  lemma {:induction false} NegatedSum(ms: set<Mono>, p: Poly, v: Valuation, w: nat)
    requires ms <= p.Keys
    ensures Cong(Sum(ms, Negated(p, w), v, w), -(Sum(ms, p, v, w) as int), Pow2(w))
    decreases |ms|
  {
    hide Cong, MonoVal, Pow2;
    if ms == {} {
      CongZero(Pow2(w));
    } else {
      var m := Pick(ms);
      NegatedSum(ms - {m}, p, v, w);
      NegatedTerm(p[m], MonoVal(m, v, w), Sum(ms - {m}, Negated(p, w), v, w), Sum(ms - {m}, p, v, w), Pow2(w));
    }
  }

  lemma CongZero(m: int)
    requires m > 0
    ensures Cong(0, 0, m)
  {
  }

  function Nonzero(p: Poly, w: nat): Poly {
    map m | m in p && p[m] % Pow2(w) != 0 :: p[m]
  }

  lemma KeptTerm(c: nat, x: nat, s: int, t: int, m: int)
    requires m > 0 && Cong(t, s, m)
    ensures Cong(c * x + t, c * x + s, m)
    ensures c % m == 0 ==> Cong(t, c * x + s, m)
  {
    CongAdd(c * x, c * x, t, s, m);
    if c % m == 0 {
      assert 0 % m == 0 by { Remainder(0, m, 0, 0); }
      CongScale(0, c, x, m);
      CongAdd(0, c * x, t, s, m);
    }
  }

  lemma {:induction false} NonzeroSum(ms: set<Mono>, p: Poly, v: Valuation, w: nat)
    requires ms <= p.Keys
    ensures Cong(Sum(ms * Nonzero(p, w).Keys, Nonzero(p, w), v, w), Sum(ms, p, v, w), Pow2(w))
    decreases |ms|
  {
    hide Cong, MonoVal, Pow2;
    var q := Nonzero(p, w);
    if ms == {} {
      assert ms * q.Keys == {};
      CongZero(Pow2(w));
    } else {
      var m := Pick(ms);
      NonzeroSum(ms - {m}, p, v, w);
      assert (ms - {m}) * q.Keys == ms * q.Keys - {m};
      KeptTerm(p[m], MonoVal(m, v, w), Sum(ms - {m}, p, v, w), Sum((ms - {m}) * q.Keys, q, v, w), Pow2(w));
      if m in q {
        SumOut(ms * q.Keys, q, m, v, w);
      } else {
        assert ms * q.Keys - {m} == ms * q.Keys;
      }
    }
  }

  // ---- normal_form ------------------------------------------------------------------------------

  /** The polynomial has the term's value under every valuation. */
  ghost predicate Stands(p: Poly, t: Term, w: nat) {
    forall v :: Cong(PolyVal(p, v, w), Val(t, v, w), Pow2(w))
  }

  function Size(t: Term): nat
    decreases t, 1
  {
    match t
    case Neg(a) => Size(a) + 1
    case Add(ts) => SizeSum(t, |ts|) + 1
    case Sub(a, b) => Size(a) + Size(b) + 3
    case Mul(a, b) => Size(a) + Size(b) + 1
    case _ => 0
  }

  function SizeSum(t: Term, k: nat): (n: nat)
    requires t.Add? && k <= |t.terms|
    ensures forall j | 0 <= j < k :: Size(t.terms[j]) <= n
    decreases t, 0, k
  {
    if k == 0 then 0 else SizeSum(t, k - 1) + Size(t.terms[k - 1])
  }

  /** A polynomial on its way: what has been accumulated, under every valuation. */
  ghost predicate Reaches(p: Poly, goal: Valuation -> int, w: nat) {
    forall v :: Cong(PolyVal(p, v, w), goal(v), Pow2(w))
  }

  /** Add the items of `q`, one after the other, into `p0`. */
  method AddInto(p0: Poly, q: Poly, w: nat) returns (p: Poly)
    ensures forall v :: Cong(PolyVal(p, v, w), PolyVal(p0, v, w) + PolyVal(q, v, w), Pow2(w))
    ensures Summed(p, p0, q, q.Keys, w)
  {
    hide Cong, MonoVal, Pow2, PolyVal, Summed;
    p := p0;
    NoneSummed(p, q, w);
    var rest := q.Keys;
    assert q.Keys - rest == {};
    forall v ensures Cong(PolyVal(p, v, w), PolyVal(p0, v, w) + (PolyVal(q, v, w) - Sum(rest, q, v, w)), Pow2(w)) {
      WholeSum(q, v, w);
      Itself(PolyVal(p, v, w), Pow2(w));
    }
    while rest != {}
      invariant rest <= q.Keys && Summed(p, p0, q, q.Keys - rest, w)
      invariant forall v :: Cong(PolyVal(p, v, w), PolyVal(p0, v, w) + (PolyVal(q, v, w) - Sum(rest, q, v, w)), Pow2(w))
      decreases rest
    {
      ghost var pick := Pick(rest);
      var m :| m in rest;
      ghost var p1, rest1 := p, rest;
      SummedNext(p, p0, q, q.Keys - rest, m, w);
      p := p[m := (Coeff(p, m) + q[m]) % Pow2(w)];
      rest := rest - {m};
      assert q.Keys - rest1 + {m} == q.Keys - rest;
      forall v ensures Cong(PolyVal(p, v, w), PolyVal(p0, v, w) + (PolyVal(q, v, w) - Sum(rest, q, v, w)), Pow2(w)) {
        Accumulate(p1, m, q[m], v, w);
        SumOut(rest1, q, m, v, w);
        OneMore(PolyVal(p, v, w), PolyVal(p1, v, w), q[m] * MonoVal(m, v, w),
                PolyVal(p0, v, w) + (PolyVal(q, v, w) - Sum(rest1, q, v, w)), Pow2(w));
      }
    }
    forall v ensures Sum(rest, q, v, w) == 0 { EmptySum(rest, q, v, w); }
    assert q.Keys - rest == q.Keys;
  }

  lemma WholeSum(q: Poly, v: Valuation, w: nat)
    ensures PolyVal(q, v, w) == Sum(q.Keys, q, v, w)
  {
  }

  lemma EmptySum(ms: set<Mono>, q: Poly, v: Valuation, w: nat)
    requires ms == {}
    ensures Sum(ms, q, v, w) == 0
  {
  }

  lemma Itself(x: int, m: int)
    requires m > 0
    ensures Cong(x, x, m)
  {
  }

  /** x is y plus d, and y is z: so x is z plus d. */
  lemma OneMore(x: int, y: int, d: int, z: int, m: int)
    requires m > 0 && Cong(x, y + d, m) && Cong(y, z, m)
    ensures Cong(x, z + d, m)
  {
    CongAdd(y, z, d, d, m);
  }

  /** Add c1 * m1 * q: one row of the convolution. */
  method AddScaled(p0: Poly, c1: nat, m1: Mono, q: Poly, w: nat) returns (p: Poly)
    ensures forall v :: Cong(PolyVal(p, v, w), PolyVal(p0, v, w) + c1 * MonoVal(m1, v, w) * PolyVal(q, v, w), Pow2(w))
    ensures Rowed(p, p0, c1, m1, q, q.Keys, w)
  {
    hide Cong, MonoVal, Pow2, PolyVal, Sorted, Rowed;
    p := p0;
    NoneRowed(p, c1, m1, q, w);
    var rest := q.Keys;
    assert q.Keys - rest == {};
    forall v ensures Cong(PolyVal(p, v, w), PolyVal(p0, v, w) + RowDone(c1, m1, q, rest, v, w), Pow2(w)) {
      WholeSum(q, v, w);
      RowStart(c1, m1, q, v, w);
      Itself(PolyVal(p, v, w), Pow2(w));
    }
    while rest != {}
      invariant rest <= q.Keys && Rowed(p, p0, c1, m1, q, q.Keys - rest, w)
      invariant forall v :: Cong(PolyVal(p, v, w), PolyVal(p0, v, w) + RowDone(c1, m1, q, rest, v, w), Pow2(w))
      decreases rest
    {
      ghost var pick := Pick(rest);
      var m2 :| m2 in rest;
      ghost var p1, rest1 := p, rest;
      var m := Sorted(m1 + m2);
      RowedNext(p, p0, c1, m1, q, q.Keys - rest, m2, w);
      p := p[m := (Coeff(p, m) + c1 * q[m2]) % Pow2(w)];
      rest := rest - {m2};
      assert q.Keys - rest1 + {m2} == q.Keys - rest;
      forall v ensures Cong(PolyVal(p, v, w), PolyVal(p0, v, w) + RowDone(c1, m1, q, rest, v, w), Pow2(w)) {
        Accumulate(p1, m, c1 * q[m2], v, w);
        RowNext(c1, m1, q, rest1, m2, v, w);
        OneMore(PolyVal(p, v, w), PolyVal(p1, v, w), c1 * q[m2] * MonoVal(m, v, w),
                PolyVal(p0, v, w) + RowDone(c1, m1, q, rest1, v, w), Pow2(w));
      }
    }
    forall v
        ensures RowDone(c1, m1, q, rest, v, w) == c1 * MonoVal(m1, v, w) * PolyVal(q, v, w) { EmptySum(rest, q, v, w); }
    assert q.Keys - rest == q.Keys;
  }

  /** What the items of `q` outside `rest` contribute to the row of c1 * m1. */
  ghost function RowDone(c1: nat, m1: Mono, q: Poly, rest: set<Mono>, v: Valuation, w: nat): int
    requires rest <= q.Keys
  {
    c1 * MonoVal(m1, v, w) * (PolyVal(q, v, w) - Sum(rest, q, v, w))
  }

  lemma RowStart(c1: nat, m1: Mono, q: Poly, v: Valuation, w: nat)
    ensures RowDone(c1, m1, q, q.Keys, v, w) == 0
  {
    hide MonoVal;
  }

  lemma RowNext(c1: nat, m1: Mono, q: Poly, rest: set<Mono>, m2: Mono, v: Valuation, w: nat)
    requires rest <= q.Keys && m2 in rest
    ensures RowDone(c1, m1, q, rest - {m2}, v, w) ==
      RowDone(c1, m1, q, rest, v, w) + c1 * q[m2] * MonoVal(Sorted(m1 + m2), v, w)
  {
    hide MonoVal, Sorted, PolyVal;
    SumOut(rest, q, m2, v, w);
    SortedVal(m1 + m2, v, w);
    ConcatVal(m1, m2, v, w);
    RowArith(c1, MonoVal(m1, v, w), PolyVal(q, v, w), Sum(rest, q, v, w), q[m2], MonoVal(m2, v, w));
  }

  lemma RowArith(c: nat, x: nat, whole: int, s: int, d: nat, y: nat)
    ensures c * x * (whole - (s - d * y)) == c * x * (whole - s) + c * d * (x * y)
  {
    Distribute(c * x, whole - s, d * y);
    assert c * x * (d * y) == c * d * (x * y) by {
      Associate(c * x, d, y);
      Associate(c * d, x, y);
      assert c * x * d == c * d * x;
    }
  }

  /** The product of two polynomials. */
  method Times(p: Poly, q: Poly, w: nat) returns (r: Poly)
    ensures forall v :: Cong(PolyVal(r, v, w), PolyVal(p, v, w) * PolyVal(q, v, w), Pow2(w))
    ensures Multiplied(r, p, q, p.Keys, w)
  {
    hide Cong, MonoVal, Pow2, PolyVal, Multiplied, Rowed;
    r := map[];
    NoneMultiplied(p, q, w);
    var rest := p.Keys;
    assert p.Keys - rest == {};
    forall v ensures Cong(PolyVal(r, v, w), (PolyVal(p, v, w) - Sum(rest, p, v, w)) * PolyVal(q, v, w), Pow2(w)) {
      WholeSum(p, v, w);
      WholeSum(r, v, w);
      EmptySum({}, r, v, w);
      Itself(0, Pow2(w));
    }
    while rest != {}
      invariant rest <= p.Keys && Multiplied(r, p, q, p.Keys - rest, w)
      invariant forall v :: Cong(PolyVal(r, v, w), (PolyVal(p, v, w) - Sum(rest, p, v, w)) * PolyVal(q, v, w), Pow2(w))
      decreases rest
    {
      ghost var pick := Pick(rest);
      var m :| m in rest;
      ghost var r1, rest1 := r, rest;
      r := AddScaled(r, p[m], m, q, w);
      MultipliedNext(r1, r, p, q, p.Keys - rest, m, w);
      rest := rest - {m};
      assert p.Keys - rest1 + {m} == p.Keys - rest;
      forall v ensures Cong(PolyVal(r, v, w), (PolyVal(p, v, w) - Sum(rest, p, v, w)) * PolyVal(q, v, w), Pow2(w)) {
        SumOut(rest1, p, m, v, w);
        TimesArith(PolyVal(p, v, w), Sum(rest1, p, v, w), p[m] * MonoVal(m, v, w), PolyVal(q, v, w));
        OneMore(PolyVal(r, v, w), PolyVal(r1, v, w), p[m] * MonoVal(m, v, w) * PolyVal(q, v, w),
                (PolyVal(p, v, w) - Sum(rest1, p, v, w)) * PolyVal(q, v, w), Pow2(w));
      }
    }
    forall v ensures Sum(rest, p, v, w) == 0 { EmptySum(rest, p, v, w); }
    assert p.Keys - rest == p.Keys;
  }

  lemma TimesArith(whole: int, s: int, d: int, q: int)
    ensures (whole - (s - d)) * q == (whole - s) * q + d * q
  {
    Distribute(q, whole - s, d);
  }

  /** nf: the polynomial of an arithmetic term. */
  method Nf(t: Term, w: nat) returns (p: Poly)
    requires ArrayFree(t)
    ensures Stands(p, t, w) && Tables(p, t, w)
    decreases Size(t), t, 1
  {
    hide Cong, MonoVal, Pow2, PolyVal, Tables, Multiplied, Negated;
    match t
    case Const(c) =>
      p := map[[] := c % Pow2(w)];
      ConstTables(c, w);
      forall v ensures Cong(PolyVal(p, v, w), Val(t, v, w), Pow2(w)) { ConstPoly(c, v, w); }
    case Var(x) =>
      p := map[[x] := 1];
      VarTables(x, w);
      forall v ensures Cong(PolyVal(p, v, w), Val(t, v, w), Pow2(w)) { VarPoly(x, v, w); }
    case Neg(a) =>
      var q := Nf(a, w);
      p := Negated(q, w);
      NegatedIs(q, a, w);
      forall v ensures Cong(PolyVal(p, v, w), Val(t, v, w), Pow2(w)) { NegPoly(a, q, v, w); }
    case Add(ts) =>
      p := NfSum(t, w);
    case Sub(a, b) =>
      SubSize(a, b);
      p := Nf(Add([a, Neg(b)]), w);
      SubTables(p, a, b, w);
      forall v ensures Val(t, v, w) == Val(Add([a, Neg(b)]), v, w) { SubVal(a, b, v, w); }
    case Mul(a, b) =>
      var q1 := Nf(a, w);
      var q2 := Nf(b, w);
      p := Times(q1, q2, w);
      ProductTables(p, q1, q2, t, w);
      forall v ensures Cong(PolyVal(p, v, w), Val(t, v, w), Pow2(w)) {
        MulPoly(PolyVal(p, v, w), PolyVal(q1, v, w), PolyVal(q2, v, w), Val(a, v, w), Val(b, v, w), Pow2(w));
      }
  }

  method NfSum(t: Term, w: nat) returns (p: Poly)
    requires t.Add? && ArrayFree(t)
    ensures Stands(p, t, w) && Tables(p, t, w)
    decreases Size(t), t, 0
  {
    hide Cong, MonoVal, Pow2, PolyVal, Tables, SumTables, Summed;
    p := map[];
    NoSummands(t, w);
    var k := 0;
    forall v ensures Cong(PolyVal(p, v, w), SumVal(t, 0, v, w), Pow2(w)) {
      WholeSum(p, v, w);
      EmptySum({}, p, v, w);
      Itself(0, Pow2(w));
    }
    while k < |t.terms|
      invariant k <= |t.terms| && forall v :: Cong(PolyVal(p, v, w), SumVal(t, k, v, w), Pow2(w))
      invariant SumTables(p, t, k, w)
    {
      ghost var p0 := p;
      ArgSize(t, k);
      var q := Nf(t.terms[k], w);
      p := AddInto(p, q, w);
      NextSummand(p, p0, q, t, k, w);
      forall v ensures Cong(PolyVal(p, v, w), SumVal(t, k + 1, v, w), Pow2(w)) {
        SumPoly(PolyVal(p, v, w), PolyVal(p0, v, w), PolyVal(q, v, w), SumVal(t, k, v, w), Val(t.terms[k], v, w),
            Pow2(w));
      }
      k := k + 1;
    }
    forall v ensures Cong(PolyVal(p, v, w), Val(t, v, w), Pow2(w)) {
      Reduced(PolyVal(p, v, w), SumVal(t, k, v, w), Pow2(w));
    }
    AllSummed(p, t, w);
  }

  lemma ArgSize(t: Term, k: nat)
    requires t.Add? && k < |t.terms|
    ensures Size(t.terms[k]) < Size(t)
  {
  }

  lemma SubSize(a: Term, b: Term)
    ensures Size(Add([a, Neg(b)])) < Size(Sub(a, b))
  {
    var t := Add([a, Neg(b)]);
    assert SizeSum(t, 2) == SizeSum(t, 1) + Size(Neg(b)) && SizeSum(t, 1) == SizeSum(t, 0) + Size(a);
  }

  lemma Reduced(x: int, y: int, m: int)
    requires m > 0 && Cong(x, y, m)
    ensures Cong(x, y % m, m)
  {
    CongMod(y, m);
  }

  lemma SumPoly(x: int, x0: int, y: int, s: int, t: int, m: int)
    requires m > 0 && Cong(x, x0 + y, m) && Cong(x0, s, m) && Cong(y, t, m)
    ensures Cong(x, s + t, m)
  {
    CongAdd(x0, s, y, t, m);
  }

  lemma MulPoly(x: int, p: int, q: int, s: int, t: int, m: int)
    requires m > 0 && Cong(x, p * q, m) && Cong(p, s, m) && Cong(q, t, m)
    ensures Cong(x, (s * t) % m, m)
  {
    CongMul(p, s, q, t, m);
    CongMod(s * t, m);
  }

  lemma ConstPoly(c: int, v: Valuation, w: nat)
    ensures Cong(PolyVal(map[[] := c % Pow2(w)], v, w), c % Pow2(w), Pow2(w))
  {
    var p: Poly := map[[] := c % Pow2(w)];
    SumOut(p.Keys, p, [], v, w);
    assert p.Keys - {[]} == {};
  }

  lemma VarPoly(x: Name, v: Valuation, w: nat)
    ensures Cong(PolyVal(map[[x] := 1], v, w), v.words(x) % Pow2(w), Pow2(w))
  {
    var p: Poly := map[[x] := 1];
    SumOut(p.Keys, p, [x], v, w);
    assert p.Keys - {[x]} == {};
    assert MonoVal([x], v, w) == (v.words(x) % Pow2(w)) * MonoVal([x][1..], v, w);
  }

  lemma NegPoly(a: Term, q: Poly, v: Valuation, w: nat)
    requires Stands(q, a, w)
    ensures Cong(PolyVal(Negated(q, w), v, w), -Val(a, v, w) % Pow2(w), Pow2(w))
  {
    assert Cong(PolyVal(q, v, w), Val(a, v, w), Pow2(w));
    hide Cong;
    NegatedSum(q.Keys, q, v, w);
    assert Negated(q, w).Keys == q.Keys;
    Opposite(PolyVal(Negated(q, w), v, w), PolyVal(q, v, w), Val(a, v, w), Pow2(w));
  }

  lemma Opposite(x: int, y: int, z: int, m: int)
    requires m > 0 && Cong(x, -y, m) && Cong(y, z, m)
    ensures Cong(x, -z % m, m)
  {
    CongScale(y, z, -1, m);
    CongMod(-z, m);
  }

  lemma SubVal(a: Term, b: Term, v: Valuation, w: nat)
    ensures Val(Sub(a, b), v, w) == Val(Add([a, Neg(b)]), v, w)
  {
    var t := Add([a, Neg(b)]);
    assert SumVal(t, 2, v, w) == SumVal(t, 1, v, w) + Val(Neg(b), v, w)
        && SumVal(t, 1, v, w) == SumVal(t, 0, v, w) + Val(a, v, w);
    CongMod(-Val(b, v, w), Pow2(w));
    CongAdd(Val(a, v, w), Val(a, v, w), -Val(b, v, w) % Pow2(w), -Val(b, v, w), Pow2(w));
  }

  /** normal_form: the nonzero coefficients. */
  method NormalForm(t: Term, w: nat) returns (p: Poly)
    requires ArrayFree(t)
    ensures Stands(p, t, w) && Canonical(p, t, w)
  {
    hide Cong, MonoVal, Pow2, Tables, Canonical;
    var q := Nf(t, w);
    p := Nonzero(q, w);
    NonzeroCanonical(p, q, t, w);
    forall v ensures Cong(PolyVal(p, v, w), Val(t, v, w), Pow2(w)) {
      NonzeroSum(q.Keys, q, v, w);
      assert q.Keys * p.Keys == p.Keys;
      Chained(PolyVal(p, v, w), PolyVal(q, v, w), Val(t, v, w), Pow2(w));
    }
  }

  lemma Chained(x: int, y: int, z: int, m: int)
    requires m > 0 && Cong(x, y, m) && Cong(y, z, m)
    ensures Cong(x, z, m)
  {
  }

  /** provably_equal: the same polynomial, so equal under every valuation. */
  method ProvablyEqual(t1: Term, t2: Term, w: nat) returns (b: bool)
    requires ArrayFree(t1) && ArrayFree(t2)
    ensures b <==> SamePolynomial(t1, t2, w)
    ensures b ==> forall v :: Val(t1, v, w) == Val(t2, v, w)
  {
    hide PolyVal, Pow2, Canonical, SamePolynomial;
    var p := NormalForm(t1, w);
    var q := NormalForm(t2, w);
    b := p == q;
    CanonicalSame(p, q, t1, t2, w);
    if b {
      forall v ensures Val(t1, v, w) == Val(t2, v, w) {
        SameResidue(PolyVal(p, v, w), Val(t1, v, w), Val(t2, v, w), Pow2(w));
      }
    }
  }

  lemma SameResidue(x: int, y: int, z: int, m: int)
    requires m > 0 && Cong(x, y, m) && Cong(x, z, m) && 0 <= y < m && 0 <= z < m
    ensures y == z
  {
    Remainder(y, m, 0, y);
    Remainder(z, m, 0, z);
  }
}

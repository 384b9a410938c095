/** The formal coefficients of an arithmetic term, and polynomials that have them. */
module Coefficients {
  import opened Sets
  import opened Circuit
  import opened Modular
  import opened Terms

  type Mono = seq<Name>
  type Poly = map<Mono, nat>

  predicate NameLess(a: Name, b: Name) {
    b != [] && (a == [] || a[0] < b[0] || (a[0] == b[0] && NameLess(a[1..], b[1..])))
  }

  function Insert(x: Name, m: Mono): Mono {
    if m == [] || !NameLess(m[0], x) then [x] + m else [m[0]] + Insert(x, m[1..])
  }

  /** sorted. */
  function Sorted(m: Mono): Mono {
    if m == [] then [] else Insert(m[0], Sorted(m[1..]))
  }

  function Coeff(p: Poly, m: Mono): nat {
    if m in p then p[m] else 0
  }

  // ---- terms as polynomials over the integers -------------------------------------------------

  /** The monomials that multiplying out meets. */
  ghost function Monos(t: Term): set<Mono>
    decreases t
  {
    match t
    case Const(_) => {[]}
    case Var(x) => {[x]}
    case Neg(a) => Monos(a)
    case Add(ts) => set k, m | 0 <= k < |ts| && m in Monos(ts[k]) :: m
    case Sub(a, b) => Monos(a) + Monos(b)
    case Mul(a, b) => Products(Monos(a), Monos(b))
    case Select(_, _) => {}
  }

  ghost function Products(ms: set<Mono>, ns: set<Mono>): set<Mono> {
    set m, n | m in ms && n in ns :: Sorted(m + n)
  }

  /** The integer coefficient of the monomial `m` in the term multiplied out. */
  ghost function Formal(t: Term, m: Mono): int
    decreases t, 2, 0
  {
    match t
    case Const(c) => if m == [] then c else 0
    case Var(x) => if m == [x] then 1 else 0
    case Neg(a) => -Formal(a, m)
    case Add(ts) => FormalSum(t, |ts|, m)
    case Sub(a, b) => Formal(a, m) - Formal(b, m)
    case Mul(a, b) => FormalProduct(t, Monos(a), m)
    case Select(_, _) => 0
  }

  ghost function FormalSum(t: Term, k: nat, m: Mono): int
    requires t.Add? && k <= |t.terms|
    decreases t, 1, k
  {
    if k == 0 then 0 else FormalSum(t, k - 1, m) + Formal(t.terms[k - 1], m)
  }

  /** The pairs whose first monomial is in `ms`. */
  ghost function FormalProduct(t: Term, ms: set<Mono>, m: Mono): int
    requires t.Mul?
    decreases t, 1, |ms|
  {
    if ms == {} then 0
    else
      var x := Pick(ms);
      FormalRow(t, Formal(t.fst, x), x, Monos(t.snd), m) + FormalProduct(t, ms - {x}, m)
  }

  ghost function FormalRow(t: Term, c: int, x: Mono, ns: set<Mono>, m: Mono): int
    requires t.Mul?
    decreases t, 0, |ns|
  {
    if ns == {} then 0
    else
      var y := Pick(ns);
      (if Sorted(x + y) == m then c * Formal(t.snd, y) else 0) + FormalRow(t, c, x, ns - {y}, m)
  }

  /** The terms are the same polynomial mod 2^w. */
  ghost predicate SamePolynomial(t: Term, u: Term, w: nat) {
    forall m :: Cong(Formal(t, m), Formal(u, m), Pow2(w))
  }

  // ---- polynomials as tables ---------------------------------------------------------------------

  /** The table has the coefficients of the term mod 2^w, under all its monomials. */
  ghost predicate Tables(p: Poly, t: Term, w: nat) {
    p.Keys == Monos(t) && forall m :: Right(p, t, m, w)
  }

  ghost predicate Right(p: Poly, t: Term, m: Mono, w: nat) {
    Coeff(p, m) <= Pow2(w) && Cong(Coeff(p, m), Formal(t, m), Pow2(w))
  }

  ghost predicate Bounded(p: Poly, w: nat) {
    forall m | m in p :: p[m] <= Pow2(w)
  }

  // ---- adding -------------------------------------------------------------------------------------

  /** The items of `q` under `done` have been added to `p0`. */
  ghost predicate Summed(p: Poly, p0: Poly, q: Poly, done: set<Mono>, w: nat) {
    && p.Keys == p0.Keys + done && (Bounded(p0, w) ==> Bounded(p, w))
    && forall m :: SummedAt(p, p0, q, done, m, w)
  }

  ghost predicate SummedAt(p: Poly, p0: Poly, q: Poly, done: set<Mono>, m: Mono, w: nat) {
    Cong(Coeff(p, m), Coeff(p0, m) + if m in done then Coeff(q, m) else 0, Pow2(w))
  }

  lemma NoneSummed(p: Poly, q: Poly, w: nat)
    ensures Summed(p, p, q, {}, w)
  {
  }

  lemma Put(p: Poly, x: Mono, c: nat, m: Mono, w: nat)
    ensures Cong(Coeff(p[x := (Coeff(p, x) + c) % Pow2(w)], m), Coeff(p, m) + (if m == x then c else 0), Pow2(w))
  {
    CongMod(Coeff(p, x) + c, Pow2(w));
  }

  lemma Further(x: int, y: int, z: int, d: int, m: int)
    requires m > 0 && Cong(x, y + d, m) && Cong(y, z, m)
    ensures Cong(x, z + d, m)
  {
    CongAdd(y, z, d, d, m);
  }

  lemma SummedNext(p: Poly, p0: Poly, q: Poly, done: set<Mono>, x: Mono, w: nat)
    requires Summed(p, p0, q, done, w) && x in q && x !in done
    ensures Summed(p[x := (Coeff(p, x) + q[x]) % Pow2(w)], p0, q, done + {x}, w)
  {
    hide Pow2, Cong, Coeff;
    var p' := p[x := (Coeff(p, x) + q[x]) % Pow2(w)];
    forall m ensures SummedAt(p', p0, q, done + {x}, m, w) {
      assert SummedAt(p, p0, q, done, m, w);
      Put(p, x, q[x], m, w);
      CoeffIn(q, x);
      Further(Coeff(p', m), Coeff(p, m), Coeff(p0, m) + (if m in done then Coeff(q, m) else 0), if m == x then q[x]
          else 0, Pow2(w));
    }
  }

  lemma CoeffIn(p: Poly, m: Mono)
    requires m in p
    ensures Coeff(p, m) == p[m]
  {
  }

  // ---- multiplying ---------------------------------------------------------------------------------

  /** What c * x times the items of `q` under `ns` contributes to the monomial `m`. */
  ghost function RowTotal(c: int, x: Mono, q: Poly, ns: set<Mono>, m: Mono): int
    requires ns <= q.Keys
    decreases |ns|
  {
    if ns == {} then 0
    else
      var y := Pick(ns);
      RowItem(c, x, q, y, m) + RowTotal(c, x, q, ns - {y}, m)
  }

  ghost function RowItem(c: int, x: Mono, q: Poly, y: Mono, m: Mono): int
    requires y in q
  {
    if Sorted(x + y) == m then c * q[y] else 0
  }

  lemma {:induction false} RowOut(c: int, x: Mono, q: Poly, ns: set<Mono>, y: Mono, m: Mono)
    requires ns <= q.Keys && y in ns
    ensures RowTotal(c, x, q, ns, m) == RowItem(c, x, q, y, m) + RowTotal(c, x, q, ns - {y}, m)
    decreases |ns|
  {
    hide RowItem;
    var z := Pick(ns);
    if z != y {
      RowOut(c, x, q, ns - {z}, y, m);
      RowOut(c, x, q, ns - {y}, z, m);
      assert ns - {z} - {y} == ns - {y} - {z};
    }
  }

  ghost function ProductTotal(p: Poly, q: Poly, ms: set<Mono>, m: Mono): int
    requires ms <= p.Keys
    decreases |ms|
  {
    if ms == {} then 0
    else
      var x := Pick(ms);
      RowTotal(p[x], x, q, q.Keys, m) + ProductTotal(p, q, ms - {x}, m)
  }

  lemma {:induction false} ProductOut(p: Poly, q: Poly, ms: set<Mono>, x: Mono, m: Mono)
    requires ms <= p.Keys && x in ms
    ensures ProductTotal(p, q, ms, m) == RowTotal(p[x], x, q, q.Keys, m) + ProductTotal(p, q, ms - {x}, m)
    decreases |ms|
  {
    hide RowTotal;
    var z := Pick(ms);
    if z != x {
      ProductOut(p, q, ms - {z}, x, m);
      ProductOut(p, q, ms - {x}, z, m);
      assert ms - {z} - {x} == ms - {x} - {z};
    }
  }

  /** The row of c * x has been added to `p0` for the items under `done`. */
  ghost predicate Rowed(p: Poly, p0: Poly, c: nat, x: Mono, q: Poly, done: set<Mono>, w: nat) {
    && done <= q.Keys && p.Keys == p0.Keys + Products({x}, done) && (Bounded(p0, w) ==> Bounded(p, w))
    && forall m :: RowedAt(p, p0, c, x, q, done, m, w)
  }

  ghost predicate RowedAt(p: Poly, p0: Poly, c: nat, x: Mono, q: Poly, done: set<Mono>, m: Mono, w: nat)
    requires done <= q.Keys
  {
    Cong(Coeff(p, m), Coeff(p0, m) + RowTotal(c, x, q, done, m), Pow2(w))
  }

  lemma NoneRowed(p: Poly, c: nat, x: Mono, q: Poly, w: nat)
    ensures Rowed(p, p, c, x, q, {}, w)
  {
  }

  lemma RowedNext(p: Poly, p0: Poly, c: nat, x: Mono, q: Poly, done: set<Mono>, y: Mono, w: nat)
    requires Rowed(p, p0, c, x, q, done, w) && y in q && y !in done
    ensures Rowed(p[Sorted(x + y) := (Coeff(p, Sorted(x + y)) + c * q[y]) % Pow2(w)], p0, c, x, q, done + {y}, w)
  {
    hide Pow2, Cong, Coeff, Sorted, RowTotal;
    var s := Sorted(x + y);
    var p' := p[s := (Coeff(p, s) + c * q[y]) % Pow2(w)];
    forall m ensures RowedAt(p', p0, c, x, q, done + {y}, m, w) {
      assert RowedAt(p, p0, c, x, q, done, m, w);
      Put(p, s, c * q[y], m, w);
      RowOut(c, x, q, done + {y}, y, m);
      assert done + {y} - {y} == done;
      Further(Coeff(p', m), Coeff(p, m), Coeff(p0, m) + RowTotal(c, x, q, done, m), if m == s then c * q[y]
          else 0, Pow2(w));
    }
    assert Products({x}, done + {y}) == Products({x}, done) + {s};
  }

  /** The rows of the items of `p` under `done` have been added up. */
  ghost predicate Multiplied(r: Poly, p: Poly, q: Poly, done: set<Mono>, w: nat) {
    && done <= p.Keys && r.Keys == Products(done, q.Keys) && Bounded(r, w)
    && forall m :: MultipliedAt(r, p, q, done, m, w)
  }

  ghost predicate MultipliedAt(r: Poly, p: Poly, q: Poly, done: set<Mono>, m: Mono, w: nat)
    requires done <= p.Keys
  {
    Cong(Coeff(r, m), ProductTotal(p, q, done, m), Pow2(w))
  }

  lemma NoneMultiplied(p: Poly, q: Poly, w: nat)
    ensures Multiplied(map[], p, q, {}, w)
  {
  }

  lemma MultipliedNext(r: Poly, r': Poly, p: Poly, q: Poly, done: set<Mono>, x: Mono, w: nat)
    requires Multiplied(r, p, q, done, w) && x in p && x !in done && Rowed(r', r, p[x], x, q, q.Keys, w)
    ensures Multiplied(r', p, q, done + {x}, w)
  {
    hide Pow2, Cong, Coeff, Sorted, RowTotal, ProductTotal;
    forall m ensures MultipliedAt(r', p, q, done + {x}, m, w) {
      assert MultipliedAt(r, p, q, done, m, w) && RowedAt(r', r, p[x], x, q, q.Keys, m, w);
      ProductOut(p, q, done + {x}, x, m);
      assert done + {x} - {x} == done;
      Further(Coeff(r', m), Coeff(r, m), ProductTotal(p, q, done, m), RowTotal(p[x], x, q, q.Keys, m), Pow2(w));
    }
    assert Products(done + {x}, q.Keys) == Products(done, q.Keys) + Products({x}, q.Keys);
  }

  /** Tables of the factors give a table of the product. */
  lemma ProductTables(r: Poly, p: Poly, q: Poly, t: Term, w: nat)
    requires t.Mul? && Tables(p, t.fst, w) && Tables(q, t.snd, w) && Multiplied(r, p, q, p.Keys, w)
    ensures Tables(r, t, w)
  {
    hide Pow2, Cong, Sorted, Coeff, ProductTotal, RowTotal;
    forall m ensures Right(r, t, m, w) {
      assert MultipliedAt(r, p, q, p.Keys, m, w);
      SameProduct(p, q, t, p.Keys, m, w);
      CongTrans(Coeff(r, m), ProductTotal(p, q, p.Keys, m), Formal(t, m), Pow2(w));
      CoeffBounded(r, m, w);
    }
  }

  lemma CoeffBounded(p: Poly, m: Mono, w: nat)
    requires Bounded(p, w)
    ensures Coeff(p, m) <= Pow2(w)
  {
  }

  lemma CongTrans(x: int, y: int, z: int, m: int)
    requires m > 0 && Cong(x, y, m) && Cong(y, z, m)
    ensures Cong(x, z, m)
  {
  }

  lemma {:induction false} SameProduct(p: Poly, q: Poly, t: Term, ms: set<Mono>, m: Mono, w: nat)
    requires t.Mul? && Tables(p, t.fst, w) && Tables(q, t.snd, w) && ms <= p.Keys
    ensures Cong(ProductTotal(p, q, ms, m), FormalProduct(t, ms, m), Pow2(w))
    decreases |ms|
  {
    hide Pow2, Cong, Sorted, Coeff, RowTotal, FormalRow, Formal, Monos;
    if ms == {} {
      CongSelf(0, Pow2(w));
    } else {
      var x := Pick(ms);
      assert Right(p, t.fst, x, w);
      CoeffIn(p, x);
      SameRow(q, t, p[x], Formal(t.fst, x), x, q.Keys, m, w);
      SameProduct(p, q, t, ms - {x}, m, w);
      CongAdd(RowTotal(p[x], x, q, q.Keys, m), FormalRow(t, Formal(t.fst, x), x, Monos(t.snd), m),
              ProductTotal(p, q, ms - {x}, m), FormalProduct(t, ms - {x}, m), Pow2(w));
    }
  }

  lemma CongSelf(x: int, m: int)
    requires m > 0
    ensures Cong(x, x, m)
  {
  }

  lemma {:induction false} SameRow(q: Poly, t: Term, c: int, d: int, x: Mono, ns: set<Mono>, m: Mono, w: nat)
    requires t.Mul? && Tables(q, t.snd, w) && ns <= q.Keys && Cong(c, d, Pow2(w))
    ensures Cong(RowTotal(c, x, q, ns, m), FormalRow(t, d, x, ns, m), Pow2(w))
    decreases |ns|
  {
    hide Pow2, Cong, Sorted, Coeff, Formal, Monos;
    if ns == {} {
      CongSelf(0, Pow2(w));
    } else {
      var y := Pick(ns);
      assert Right(q, t.snd, y, w);
      CoeffIn(q, y);
      CongMul(c, d, q[y], Formal(t.snd, y), Pow2(w));
      CongSelf(0, Pow2(w));
      SameRow(q, t, c, d, x, ns - {y}, m, w);
      CongAdd(RowItem(c, x, q, y, m), if Sorted(x + y) == m then d * Formal(t.snd, y) else 0,
              RowTotal(c, x, q, ns - {y}, m), FormalRow(t, d, x, ns - {y}, m), Pow2(w));
    }
  }

  // ---- the other kinds of terms ---------------------------------------------------------------------

  lemma ConstTables(c: int, w: nat)
    ensures Tables(map[[] := c % Pow2(w)], Term.Const(c), w)
  {
    CongMod(c, Pow2(w));
  }

  lemma VarTables(x: Name, w: nat)
    ensures Tables(map[[x] := 1], Term.Var(x), w)
  {
  }

  lemma NegTables(p: Poly, q: Poly, a: Term, w: nat)
    requires Tables(q, a, w) && p.Keys == q.Keys && forall m | m in q :: p[m] == -(q[m] as int) % Pow2(w)
    ensures Tables(p, Neg(a), w)
  {
    forall m ensures Right(p, Neg(a), m, w) {
      assert Right(q, a, m, w);
      var c: int := Coeff(q, m);
      CongScale(c, Formal(a, m), -1, Pow2(w));
      CongMod(-c, Pow2(w));
    }
  }

  /** The table of the first `k` summands. */
  ghost predicate SumTables(p: Poly, t: Term, k: nat, w: nat)
    requires t.Add? && k <= |t.terms|
  {
    && Bounded(p, w) && (forall x :: x in p <==> exists j :: 0 <= j < k && x in Monos(t.terms[j]))
    && forall m :: SumRight(p, t, k, m, w)
  }

  ghost predicate SumRight(p: Poly, t: Term, k: nat, m: Mono, w: nat)
    requires t.Add? && k <= |t.terms|
  {
    Cong(Coeff(p, m), FormalSum(t, k, m), Pow2(w))
  }

  lemma NoSummands(t: Term, w: nat)
    requires t.Add?
    ensures SumTables(map[], t, 0, w)
  {
  }

  lemma NextSummand(p: Poly, p0: Poly, q: Poly, t: Term, k: nat, w: nat)
    requires t.Add? && k < |t.terms| && SumTables(p0, t, k, w) && Tables(q, t.terms[k], w)
        && Summed(p, p0, q, q.Keys, w)
    ensures SumTables(p, t, k + 1, w)
  {
    hide Pow2, Cong, Formal, Monos;
    var more := k + 1;
    forall m ensures SumRight(p, t, more, m, w) {
      assert SumRight(p0, t, k, m, w) && Right(q, t.terms[k], m, w) && SummedAt(p, p0, q, q.Keys, m, w);
      CongAdd(Coeff(p0, m), FormalSum(t, k, m), Coeff(q, m), Formal(t.terms[k], m), Pow2(w));
      CongTrans(Coeff(p, m), Coeff(p0, m) + Coeff(q, m), FormalSum(t, k, m) + Formal(t.terms[k], m), Pow2(w));
    }
  }

  lemma AllSummed(p: Poly, t: Term, w: nat)
    requires t.Add? && SumTables(p, t, |t.terms|, w)
    ensures Tables(p, t, w)
  {
    forall m ensures Right(p, t, m, w) {
      assert SumRight(p, t, |t.terms|, m, w);
      CoeffBounded(p, m, w);
    }
    forall m ensures m in p <==> m in Monos(t) {
    }
  }

  lemma SubTables(p: Poly, a: Term, b: Term, w: nat)
    requires Tables(p, Add([a, Neg(b)]), w)
    ensures Tables(p, Sub(a, b), w)
  {
    var t := Add([a, Neg(b)]);
    forall m ensures Formal(t, m) == Formal(Sub(a, b), m) {
      assert FormalSum(t, 2, m) == FormalSum(t, 1, m) + Formal(Neg(b), m)
          && FormalSum(t, 1, m) == FormalSum(t, 0, m) + Formal(a, m);
    }
    forall m ensures m in Monos(t) <==> m in Monos(Sub(a, b)) {
      assert t.terms[0] == a && t.terms[1] == Neg(b) && Monos(Neg(b)) == Monos(b);
    }
    forall m ensures Right(p, Sub(a, b), m, w) {
      assert Right(p, t, m, w);
    }
  }

  // ---- normal forms ----------------------------------------------------------------------------------

  /** Just the nonzero coefficients mod 2^w, reduced. */
  ghost predicate Canonical(p: Poly, t: Term, w: nat) {
    forall m :: CanonicalAt(p, t, m, w)
  }

  ghost predicate CanonicalAt(p: Poly, t: Term, m: Mono, w: nat) {
    Coeff(p, m) == Formal(t, m) % Pow2(w) && (m in p <==> Coeff(p, m) != 0)
  }

  lemma NonzeroCanonical(p: Poly, q: Poly, t: Term, w: nat)
    requires Tables(q, t, w) && p == map m | m in q && q[m] % Pow2(w) != 0 :: q[m]
    ensures Canonical(p, t, w)
  {
    hide Formal, Pow2;
    forall m ensures CanonicalAt(p, t, m, w) {
      assert Right(q, t, m, w);
      ReducedCoeff(Coeff(q, m), Pow2(w));
    }
  }

  lemma ReducedCoeff(c: nat, m: nat)
    requires m > 0 && c <= m
    ensures c % m == if c == m then 0 else c
  {
    Remainder(c, m, if c == m then 1 else 0, if c == m then 0 else c);
  }

  /** Terms have equal normal forms just when they are the same polynomial mod 2^w. */
  lemma CanonicalSame(p: Poly, q: Poly, t: Term, u: Term, w: nat)
    requires Canonical(p, t, w) && Canonical(q, u, w)
    ensures p == q <==> SamePolynomial(t, u, w)
  {
    hide Formal, Pow2;
    if SamePolynomial(t, u, w) {
      forall m ensures (m in p <==> m in q) && (m in p ==> p[m] == q[m]) {
        assert CanonicalAt(p, t, m, w) && CanonicalAt(q, u, m, w) && Cong(Formal(t, m), Formal(u, m), Pow2(w));
      }
      assert p.Keys == q.Keys;
    }
    if p == q {
      forall m ensures Cong(Formal(t, m), Formal(u, m), Pow2(w)) {
        assert CanonicalAt(p, t, m, w) && CanonicalAt(q, u, m, w);
      }
    }
  }
}

/** Bit-vector gates: ripple-carry and shift-and-add circuits compute arithmetic mod 2^w. */
module BitVec {
  import opened Circuit
  import opened Modular

  /** Bits, lowest first. */
  type BV = seq<Sig>

  /** What a bit of weight `p` adds. */
  function Weighted(b: bool, p: nat): nat {
    if b then p else 0
  }

  /** The number the bits stand for. */
  ghost function Num(bits: BV, e: Env): (n: nat)
    ensures n < Pow2(|bits|)
  {
    if bits == [] then 0
    else
      var k := |bits| - 1;
      Num(bits[..k], e) + Weighted(Eval(bits[k], e), Pow2(k))
  }

  lemma NumAppend(bits: BV, x: Sig, e: Env)
    ensures Num(bits + [x], e) == Num(bits, e) + Weighted(Eval(x, e), Pow2(|bits|))
  {
    assert (bits + [x])[..|bits|] == bits;
  }

  lemma {:induction false} NumConcat(a: BV, b: BV, e: Env)
    ensures Num(a + b, e) == Num(a, e) + Pow2(|a|) * Num(b, e)
    decreases |b|
  {
    hide Num, Pow2, Eval;
    if b == [] {
      assert a + b == a;
      NumNone(b, e);
    } else {
      var k := |b| - 1;
      assert a + b == (a + b[..k]) + [b[k]] && b == b[..k] + [b[k]];
      NumAppend(a + b[..k], b[k], e);
      NumAppend(b[..k], b[k], e);
      NumConcat(a, b[..k], e);
      Pow2Add(|a|, k);
      Distribute(Pow2(|a|), Num(b[..k], e), Weighted(Eval(b[k], e), Pow2(k)));
    }
  }

  lemma NumNone(b: BV, e: Env)
    requires b == []
    ensures Num(b, e) == 0
  {
  }

  /** Zeros. */
  function Zeros(n: nat): (z: BV)
    ensures |z| == n
  {
    seq(n, _ => FALSE)
  }

  lemma {:induction false} NumZeros(n: nat, e: Env)
    ensures Num(Zeros(n), e) == 0
  {
    if n > 0 {
      assert Zeros(n)[..n - 1] == Zeros(n - 1);
      NumZeros(n - 1, e);
    }
  }

  /** Padded with zeros and cut to `w` bits. */
  function Fit(a: BV, w: nat): (r: BV)
    ensures |r| == w
  {
    if |a| >= w then a[..w] else a + Zeros(w - |a|)
  }

  lemma NumFit(a: BV, w: nat, e: Env)
    ensures Cong(Num(Fit(a, w), e), Num(a, e), Pow2(w))
    ensures |a| <= w ==> Num(Fit(a, w), e) == Num(a, e)
  {
    hide Num, Pow2, Eval, Cong;
    CongRefl(Num(a, e), Pow2(w));
    if |a| >= w {
      assert a == a[..w] + a[w..];
      NumConcat(a[..w], a[w..], e);
      CutShort(Num(a, e), Num(a[..w], e), Num(a[w..], e), Pow2(w));
      if |a| == w { assert a[..w] == a; }
    } else {
      NumConcat(a, Zeros(w - |a|), e);
      NumZeros(w - |a|, e);
      assert Pow2(|a|) * Num(Zeros(w - |a|), e) == 0;
    }
  }

  lemma CutShort(whole: nat, low: nat, high: nat, m: nat)
    requires m > 0 && whole == low + m * high
    ensures Cong(low, whole, m)
  {
    CongShift(whole, low, m, high);
  }

  lemma CongRefl(x: int, m: int)
    requires m > 0
    ensures Cong(x, x, m)
  {
  }

  // ---- addition -----------------------------------------------------------------------

  lemma LongerBy(out: BV, x: Sig)
    ensures Pow2(|out + [x]|) == 2 * Pow2(|out|)
  {
    Pow2Next(|out|);
  }

  /** The sum so far and the carry: what the first k positions add up to. */
  ghost predicate Adds(out: BV, carry: Sig, a: BV, b: BV, e: Env) {
    |out| == |a| == |b| && Num(out, e) + Weighted(Eval(carry, e), Pow2(|out|)) == Num(a, e) + Num(b, e)
  }

  lemma AddsNext(out: BV, carry: Sig, a: BV, b: BV, x: Sig, y: Sig, s: Sig, c: Sig, e: Env)
    requires Adds(out, carry, a, b, e)
    requires Eval(s, e) == ((Eval(x, e) != Eval(y, e)) != Eval(carry, e))
    requires Eval(c, e) == ((Eval(x, e) && Eval(y, e)) || (Eval(carry, e) && Eval(x, e) != Eval(y, e)))
    ensures Adds(out + [s], c, a + [x], b + [y], e)
  {
    hide Num, Pow2, Eval, Weighted, Adds;
    var p, q, d := Pow2(|out|), Weighted(Eval(carry, e), Pow2(|out|)), Num(out, e);
    Totals(out, carry, a, b, e);
    var out', a', b' := out + [s], a + [x], b + [y];
    OneBit(out, s, p, e);
    OneBit(a, x, p, e);
    OneBit(b, y, p, e);
    Position(d, d + q, p, Eval(x, e), Eval(y, e), Eval(carry, e), Eval(s, e), Eval(c, e));
    AddsMade(out', c, a', b', e);
  }

  lemma Totals(out: BV, carry: Sig, a: BV, b: BV, e: Env)
    requires Adds(out, carry, a, b, e)
    ensures |out| == |a| == |b| && Num(out, e) + Weighted(Eval(carry, e), Pow2(|out|)) == Num(a, e) + Num(b, e)
  {
  }

  lemma AddsMade(out: BV, carry: Sig, a: BV, b: BV, e: Env)
    requires |out| == |a| == |b| && Num(out, e) + Weighted(Eval(carry, e), Pow2(|out|)) == Num(a, e) + Num(b, e)
    ensures Adds(out, carry, a, b, e)
  {
  }

  lemma OneBit(out: BV, s: Sig, p: nat, e: Env)
    requires p == Pow2(|out|)
    ensures Num(out + [s], e) == Num(out, e) + Weighted(Eval(s, e), p) && Pow2(|out + [s]|) == 2 * p
  {
    NumAppend(out, s, e);
  }

  /** Column addition at one position of weight `p`. */
  lemma Position(sum: nat, total: nat, p: nat, x: bool, y: bool, carry: bool, s: bool, c: bool)
    requires sum + Weighted(carry, p) == total && s == ((x != y) != carry) && c == ((x && y) || (carry && x != y))
    ensures sum + Weighted(s, p) + Weighted(c, 2 * p) == total + Weighted(x, p) + Weighted(y, p)
  {
  }

  /** One position of the ripple-carry adder. */
  method FullAdder(x: Sig, y: Sig, carry: Sig) returns (s: Sig, c: Sig)
    ensures Support(s) + Support(c) <= Support(x) + Support(y) + Support(carry)
    ensures forall e :: Eval(s, e) == ((Eval(x, e) != Eval(y, e)) != Eval(carry, e))
    ensures forall e :: Eval(c, e) == ((Eval(x, e) && Eval(y, e)) || (Eval(carry, e) && Eval(x, e) != Eval(y, e)))
  {
    hide Eval, Support;
    s := XOR(XOR(x, y), carry);
    var both := AndTwo(x, y);
    var through := AndTwo(carry, XOR(x, y));
    c := OrTwo(both, through);
  }

  /** bv_add. */
  method BvAdd(a: BV, b: BV, w: nat) returns (r: BV)
    ensures |r| == w && forall e :: Num(r, e) == (Num(a, e) + Num(b, e)) % Pow2(w)
    ensures forall ns :: Within(a, ns) && Within(b, ns) ==> Within(r, ns)
  {
    hide Num, Eval, Support, Fit;
    var x, y := Fit(a, w), Fit(b, w);
    var carry := FALSE;
    r := [];
    forall e ensures Adds([], FALSE, x[..0], y[..0], e) { NoBits(e); }
    forall ns | Within(a, ns) && Within(b, ns) ensures Within(x, ns) && Within(y, ns) {
      FitWithin(a, w, ns);
      FitWithin(b, w, ns);
    }
    ConstSupport();
    while |r| < w
      invariant |r| <= w && forall e :: Adds(r, carry, x[..|r|], y[..|r|], e)
      invariant forall ns :: Within(x, ns) && Within(y, ns) ==> Within(r, ns) && Support(carry) <= ns
    {
      var k := |r|;
      var s, c := FullAdder(x[k], y[k], carry);
      assert x[..k + 1] == x[..k] + [x[k]] && y[..k + 1] == y[..k] + [y[k]];
      ghost var r0, carry0, x', y' := r, carry, x[..k + 1], y[..k + 1];
      r := r + [s];
      carry := c;
      forall e ensures Adds(r, carry, x', y', e) {
        AddsNext(r0, carry0, x[..k], y[..k], x[k], y[k], s, c, e);
      }
    }
    assert x[..w] == x && y[..w] == y;
    forall e ensures Num(r, e) == (Num(a, e) + Num(b, e)) % Pow2(w) {
      SumMod(r, carry, x, y, w, e);
      NumFit(a, w, e);
      NumFit(b, w, e);
      CongAdd(Num(x, e), Num(a, e), Num(y, e), Num(b, e), Pow2(w));
    }
  }

  lemma ConstSupport()
    ensures Support(FALSE) == {} && Support(TRUE) == {}
  {
  }

  lemma FitWithin(a: BV, w: nat, ns: set<Name>)
    requires Within(a, ns)
    ensures Within(Fit(a, w), ns)
  {
    ConstSupport();
    var r := Fit(a, w);
    forall k | 0 <= k < |r| ensures Support(r[k]) <= ns {
      if k < |a| { assert r[k] == a[k]; } else { assert r[k] == FALSE; }
    }
  }

  lemma NoBits(e: Env)
    ensures Adds([], FALSE, [], [], e)
  {
  }

  lemma SumMod(r: BV, carry: Sig, x: BV, y: BV, w: nat, e: Env)
    requires Adds(r, carry, x, y, e) && |r| == w
    ensures Num(r, e) == (Num(x, e) + Num(y, e)) % Pow2(w)
  {
    hide Num, Pow2, Eval;
    var c := if Eval(carry, e) then 1 else 0;
    NumBound(r, e);
    Remainder(Num(x, e) + Num(y, e), Pow2(w), c, Num(r, e));
  }

  // ---- increment and negation ----------------------------------------------------------------

  ghost predicate Increments(out: BV, carry: Sig, a: BV, e: Env) {
    |out| == |a| && Num(out, e) + Weighted(Eval(carry, e), Pow2(|out|)) == Num(a, e) + 1
  }

  lemma IncrementsNext(out: BV, carry: Sig, a: BV, x: Sig, s: Sig, c: Sig, e: Env)
    requires Increments(out, carry, a, e)
    requires Eval(s, e) == (Eval(x, e) != Eval(carry, e)) && Eval(c, e) == (Eval(x, e) && Eval(carry, e))
    ensures Increments(out + [s], c, a + [x], e)
  {
    hide Num, Pow2, Eval;
    NumAppend(out, s, e);
    NumAppend(a, x, e);
    LongerBy(out, s);
  }

  /** bv_inc. */
  method BvInc(a: BV) returns (r: BV)
    ensures |r| == |a| && forall e :: Num(r, e) == (Num(a, e) + 1) % Pow2(|a|)
    ensures forall ns :: Within(a, ns) ==> Within(r, ns)
  {
    hide Num, Eval, Support;
    ConstSupport();
    var carry := TRUE;
    r := [];
    forall e ensures Increments([], TRUE, a[..0], e) { OneMore(e); }
    while |r| < |a|
      invariant |r| <= |a| && forall e :: Increments(r, carry, a[..|r|], e)
      invariant forall ns :: Within(a, ns) ==> Within(r, ns) && Support(carry) <= ns
    {
      var k := |r|;
      var s := XOR(a[k], carry);
      var c := AndTwo(a[k], carry);
      assert a[..k + 1] == a[..k] + [a[k]];
      ghost var r0, carry0, a' := r, carry, a[..k + 1];
      r := r + [s];
      carry := c;
      forall e ensures Increments(r, carry, a', e) {
        IncrementsNext(r0, carry0, a[..k], a[k], s, c, e);
      }
    }
    assert a[..|r|] == a;
    forall e ensures Num(r, e) == (Num(a, e) + 1) % Pow2(|a|) {
      NumBound(r, e);
      assert Increments(r, carry, a, e);
      Remainder(Num(a, e) + 1, Pow2(|a|), if Eval(carry, e) then 1 else 0, Num(r, e));
    }
  }

  lemma OneMore(e: Env)
    ensures Increments([], TRUE, [], e)
  {
  }

  function NotAll(a: BV): (r: BV)
    ensures |r| == |a|
  {
    seq(|a|, k requires 0 <= k < |a| => NOT(a[k]))
  }

  lemma {:induction false} NumNot(a: BV, e: Env)
    ensures Num(NotAll(a), e) == Pow2(|a|) - 1 - Num(a, e)
    decreases |a|
  {
    if a != [] {
      var k := |a| - 1;
      assert NotAll(a)[..k] == NotAll(a[..k]);
      NumNot(a[..k], e);
    }
  }

  /** Two's complement: ~a + 1. */
  method BvNeg(a: BV) returns (r: BV)
    ensures |r| == |a| && forall e :: Num(r, e) == (-(Num(a, e) as int)) % Pow2(|a|)
    ensures forall ns :: Within(a, ns) ==> Within(r, ns)
  {
    r := BvInc(NotAll(a));
    forall e ensures Num(r, e) == (-(Num(a, e) as int)) % Pow2(|a|) {
      NumNot(a, e);
      Shift(-(Num(a, e) as int), Pow2(|a|), 1);
    }
  }

  /** bv_sub: a + (~b + 1). */
  method BvSub(a: BV, b: BV, w: nat) returns (r: BV)
    ensures |r| == w && forall e :: Num(r, e) == (Num(a, e) - Num(b, e)) % Pow2(w)
    ensures forall ns :: Within(a, ns) && Within(b, ns) ==> Within(r, ns)
  {
    hide Num, Eval, Within;
    var nb := BvNeg(Fit(b, w));
    r := BvAdd(a, nb, w);
    forall ns | Within(a, ns) && Within(b, ns) ensures Within(r, ns) { FitWithin(b, w, ns); }
    forall e ensures Num(r, e) == (Num(a, e) - Num(b, e)) % Pow2(w) {
      var m := Pow2(w);
      NumFit(b, w, e);
      CongScale(Num(Fit(b, w), e), Num(b, e), -1, m);
      CongMod(-(Num(Fit(b, w), e) as int), m);
      CongAdd(Num(a, e), Num(a, e), Num(nb, e), -(Num(b, e) as int), m);
    }
  }

  // ---- multiplication --------------------------------------------------------------------------

  /** Row `i` of the array multiplier: the low bits of `a` shifted up, if the bit is 1. */
  method Partial(a: BV, bit: Sig, i: nat, w: nat) returns (r: BV)
    requires i < w
    ensures forall e :: Cong(Num(r, e), Weighted(Eval(bit, e), Pow2(i)) * Num(a, e), Pow2(w))
    ensures forall ns :: Within(a, ns) && Support(bit) <= ns ==> Within(r, ns)
  {
    hide Num, Eval, Support;
    ConstSupport();
    var low := if |a| >= w - i then a[..w - i] else a;
    var row: BV := [];
    while |row| < |low|
      invariant |row| <= |low| && forall e, k | 0 <= k < |row| :: Eval(row[k], e) == (Eval(bit, e) && Eval(low[k], e))
      invariant forall ns :: Within(a, ns) && Support(bit) <= ns ==> Within(row, ns)
    {
      var x := AndTwo(bit, low[|row|]);
      row := row + [x];
    }
    r := Zeros(i) + row;
    forall e ensures Cong(Num(r, e), Weighted(Eval(bit, e), Pow2(i)) * Num(a, e), Pow2(w)) {
      NumConcat(Zeros(i), row, e);
      NumZeros(i, e);
      NumRow(row, low, bit, e);
      LowBits(a, low, i, w, e);
    }
  }

  lemma {:induction false} NumRow(row: BV, low: BV, bit: Sig, e: Env)
    requires |row| == |low| && forall k | 0 <= k < |row| :: Eval(row[k], e) == (Eval(bit, e) && Eval(low[k], e))
    ensures Num(row, e) == if Eval(bit, e) then Num(low, e) else 0
    decreases |row|
  {
    if row != [] {
      var k := |row| - 1;
      NumRow(row[..k], low[..k], bit, e);
    }
  }

  /** Bits that the shift pushes out of `w` positions do not count. */
  lemma LowBits(a: BV, low: BV, i: nat, w: nat, e: Env)
    requires i <= w && low == if |a| >= w - i then a[..w - i] else a
    ensures SameLow(low, a, i, w, e)
  {
    hide SameLow, Num, Pow2;
    if |a| < w - i {
      SameLowRefl(a, i, w, e);
    } else {
      assert a == low + a[w - i..];
      ShiftedOut(low, a[w - i..], i, e);
    }
  }

  /** Shifted by `i`, the words agree mod 2^w. */
  ghost predicate SameLow(low: BV, a: BV, i: nat, w: nat, e: Env) {
    Cong(Pow2(i) * Num(low, e), Pow2(i) * Num(a, e), Pow2(w))
  }

  lemma SameLowRefl(a: BV, i: nat, w: nat, e: Env)
    ensures SameLow(a, a, i, w, e)
  {
    hide Num, Pow2, Cong;
    CongRefl(Pow2(i) * Num(a, e), Pow2(w));
  }

  lemma ShiftedOut(low: BV, hi: BV, i: nat, e: Env)
    ensures SameLow(low, low + hi, i, i + |low|, e)
  {
    hide Num, Pow2, Eval, Cong;
    NumConcat(low, hi, e);
    Pow2Add(i, |low|);
    HighBits(Pow2(i), Pow2(|low|), Num(low, e), Num(hi, e), Num(low + hi, e), Pow2(i + |low|));
  }

  lemma HighBits(p: nat, q: nat, n: nat, h: nat, a: nat, m: nat)
    requires a == n + q * h && m == p * q && m > 0
    ensures Cong(p * n, p * a, m)
  {
    Distribute(p, n, q * h);
    Associate(p, q, h);
    CongShift(p * a, p * n, m, h);
  }

  /** The rows added so far: a times the low bits `low` of b. */
  ghost predicate Multiplied(r: BV, a: BV, low: BV, w: nat, e: Env) {
    Cong(Num(r, e), Num(a, e) * Num(low, e), Pow2(w))
  }

  /** bv_mul. */
  method BvMul(a: BV, b: BV, w: nat) returns (r: BV)
    ensures |r| == w && forall e :: Num(r, e) == (Num(a, e) * Num(b, e)) % Pow2(w)
    ensures forall ns :: Within(a, ns) && Within(b, ns) ==> Within(r, ns)
  {
    hide Num, Eval, Support, Multiplied, Pow2;
    var low := if |b| >= w then b[..w] else b;
    r := Zeros(w);
    ConstSupport();
    var i := 0;
    forall e ensures Multiplied(r, a, low[..0], w, e) {
      NoneYet(a, low[..0], w, e);
    }
    while i < |low|
      invariant i <= |low| && |r| == w && forall e :: Multiplied(r, a, low[..i], w, e)
      invariant forall ns :: Within(a, ns) && Within(b, ns) ==> Within(r, ns)
    {
      var row := Partial(a, low[i], i, w);
      var r0 := r;
      r := BvAdd(r, row, w);
      ghost var more := low[..i + 1];
      assert more == low[..i] + [low[i]];
      forall e ensures Multiplied(r, a, more, w, e) {
        RowAdded(r, r0, row, a, low[..i], low[i], w, e);
      }
      i := i + 1;
    }
    assert low[..i] == low;
    forall e ensures Num(r, e) == (Num(a, e) * Num(b, e)) % Pow2(w) {
      AllMultiplied(r, a, b, low, w, e);
    }
  }

  lemma AllMultiplied(r: BV, a: BV, b: BV, low: BV, w: nat, e: Env)
    requires |r| == w && Multiplied(r, a, low, w, e) && low == if |b| >= w then b[..w] else b
    ensures Num(r, e) == (Num(a, e) * Num(b, e)) % Pow2(w)
  {
    hide Num, Eval;
    LowCong(b, low, w, e);
    CongScale(Num(low, e), Num(b, e), Num(a, e), Pow2(w));
    NumBound(r, e);
    Remainder(Num(r, e), Pow2(w), 0, Num(r, e));
  }

  lemma LowCong(b: BV, low: BV, w: nat, e: Env)
    requires low == if |b| >= w then b[..w] else b
    ensures Cong(Num(low, e), Num(b, e), Pow2(w))
  {
    hide Num, Cong;
    LowBits(b, low, 0, w, e);
    assert Pow2(0) == 1;
  }

  lemma NumBound(r: BV, e: Env)
    ensures Num(r, e) < Pow2(|r|)
  {
  }

  lemma NoneYet(a: BV, none: BV, w: nat, e: Env)
    requires none == []
    ensures Multiplied(Zeros(w), a, none, w, e)
  {
    NumZeros(w, e);
    assert Num(a, e) * Num(none, e) == 0;
  }

  lemma RowAdded(r: BV, r0: BV, row: BV, a: BV, low: BV, bit: Sig, w: nat, e: Env)
    requires Num(r, e) == (Num(r0, e) + Num(row, e)) % Pow2(w) && Multiplied(r0, a, low, w, e)
    requires Cong(Num(row, e), Weighted(Eval(bit, e), Pow2(|low|)) * Num(a, e), Pow2(w))
    ensures Multiplied(r, a, low + [bit], w, e)
  {
    hide Num, Pow2, Eval;
    NumAppend(low, bit, e);
    RowArith(Num(r, e), Num(r0, e), Num(row, e), Num(a, e), Num(low, e), Weighted(Eval(bit, e), Pow2(|low|)), Pow2(w));
  }

  lemma RowArith(sum: nat, before: nat, row: nat, n: nat, l: nat, t: nat, m: nat)
    requires m > 0 && sum == (before + row) % m && Cong(before, n * l, m) && Cong(row, t * n, m)
    ensures Cong(sum, n * (l + t), m)
  {
    CongAdd(before, n * l, row, t * n, m);
    CongMod(before + row, m);
    Distribute(n, l, t);
  }
}

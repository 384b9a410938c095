/** Wide words as arrays of 64-bit words, lowest first, the unused high bits zero. */
module WideBits {
  import opened Modular

  const WORD: nat := 64

  /** 2^64. */
  function Base(): (b: nat)
    ensures b >= 2
  {
    Pow2(WORD)
  }

  type Words = seq<nat>

  /** The number the words stand for. */
  ghost function Value(ws: Words): nat {
    if ws == [] then 0
    else
      var k := |ws| - 1;
      Value(ws[..k]) + Pow2(WORD * k) * ws[k]
  }

  predicate WordsOk(ws: Words) {
    forall k | 0 <= k < |ws| :: ws[k] < Base()
  }

  /** A value of width 64 * (|ws| - 1) + top. */
  predicate BitsOk(ws: Words, top: nat) {
    1 <= top <= WORD && ws != [] && WordsOk(ws) && ws[|ws| - 1] < Pow2(top)
  }

  function Width(n: nat, top: nat): nat
    requires n > 0
  {
    WORD * (n - 1) + top
  }

  lemma ValueAppend(ws: Words, x: nat)
    ensures Value(ws + [x]) == Value(ws) + Pow2(WORD * |ws|) * x
  {
    assert (ws + [x])[..|ws|] == ws;
  }

  lemma {:induction false} ValueBound(ws: Words)
    requires WordsOk(ws)
    ensures Value(ws) < Pow2(WORD * |ws|)
    decreases |ws|
  {
    hide Pow2;
    if ws == [] {
      Zeroth();
    } else {
      var k := |ws| - 1;
      ValueBound(ws[..k]);
      Pow2Add(WORD * k, WORD);
      assert WORD * |ws| == WORD * k + WORD;
      Below(Value(ws[..k]), Pow2(WORD * k), ws[k], Pow2(WORD));
    }
  }

  lemma Zeroth()
    ensures Pow2(WORD * 0) == 1
  {
  }

  lemma Below(low: nat, p: nat, x: nat, b: nat)
    requires low < p && x < b
    ensures low + p * x < p * b
  {
    Distribute(p, x, 1);
    Steps(p, x + 1, b);
  }

  lemma Steps(p: nat, x: nat, y: nat)
    requires x <= y
    ensures p * x <= p * y
  {
    Distribute(p, x, y - x);
  }

  /** Two values are equal just when their words are. */
  lemma {:induction false} ValueUnique(a: Words, b: Words)
    requires |a| == |b| && WordsOk(a) && WordsOk(b)
    ensures Value(a) == Value(b) <==> a == b
    decreases |a|
  {
    hide Pow2;
    if a != [] && Value(a) == Value(b) {
      var k := |a| - 1;
      ValueBound(a[..k]);
      ValueBound(b[..k]);
      Digits(Value(a[..k]), a[k], Value(b[..k]), b[k], Pow2(WORD * k));
      ValueUnique(a[..k], b[..k]);
      assert a == a[..k] + [a[k]] && b == b[..k] + [b[k]];
    }
  }

  lemma Digits(low: nat, x: nat, low': nat, x': nat, p: nat)
    requires low < p && low' < p && low + p * x == low' + p * x'
    ensures low == low' && x == x'
  {
    Remainder(low + p * x, p, x, low);
    Remainder(low' + p * x', p, x', low');
    Distribute(p, x, 0 - x');
    Nonzero(p, x - x');
  }

  lemma Nonzero(p: int, d: int)
    requires p > 0 && p * d == 0
    ensures d == 0
  {
  }

  // ---- masking the top word ------------------------------------------------------------------

  /** mask_top. */
  function MaskTop(ws: Words, top: nat): Words
    requires ws != []
  {
    ws[..|ws| - 1] + [ws[|ws| - 1] % Pow2(top)]
  }

  lemma MaskTopOk(ws: Words, top: nat)
    requires WordsOk(ws) && ws != [] && 1 <= top <= WORD
    ensures BitsOk(MaskTop(ws, top), top)
  {
    hide Pow2, Base;
    ShorterWord(top);
  }

  /** Masking the top word reduces the number mod 2^W. */
  lemma MaskTopValue(ws: Words, top: nat)
    requires WordsOk(ws) && ws != [] && 1 <= top <= WORD
    ensures BitsOk(MaskTop(ws, top), top)
    ensures Value(MaskTop(ws, top)) == Value(ws) % Pow2(Width(|ws|, top))
  {
    hide Pow2, Base, Value, BitsOk;
    MaskTopOk(ws, top);
    var k := |ws| - 1;
    var low := ws[..k];
    assert ws == low + [ws[k]];
    ValueAppend(low, ws[k]);
    ValueAppend(low, ws[k] % Pow2(top));
    ValueBound(low);
    Pow2Add(WORD * k, top);
    TopWord(Value(low), ws[k], Pow2(WORD * k), Pow2(top));
  }

  lemma BaseIs()
    ensures Base() == Pow2(WORD)
  {
  }

  lemma ShorterWord(top: nat)
    requires top <= WORD
    ensures Pow2(top) <= Base()
  {
    hide Pow2;
    Pow2Add(top, WORD - top);
    Steps(Pow2(top), 1, Pow2(WORD - top));
  }

  lemma TopWord(low: nat, x: nat, p: nat, t: nat)
    requires low < p && t > 0
    ensures p * t > 0 && (low + p * x) % (p * t) == low + p * (x % t)
  {
    Below(low, p, x % t, t);
    Distribute(p, t * (x / t), x % t);
    Associate(p, t, x / t);
    Remainder(low + p * x, p * t, x / t, low + p * (x % t));
  }

  // ---- operator+ and operator- ------------------------------------------------------------------

  /** One word of the sum: the two overflow tests find the carry. */
  lemma WordSum(a: nat, b: nat, carry: nat, s: nat, s2: nat, c: nat, base: nat)
    requires base >= 2 && a < base && b < base && carry <= 1
    requires s == (a + b) % base && s2 == (s + carry) % base && c == if s < a || s2 < s then 1 else 0
    ensures a + b + carry == s2 + base * c && s2 < base
  {
    Wrap(a + b, base);
    Wrap(s + carry, base);
    assert base * c == if c == 1 then base else 0;
  }

  lemma Wrap(x: nat, base: nat)
    requires x < 2 * base && base > 0
    ensures x % base == if x < base then x else x - base
  {
    Remainder(x, base, if x < base then 0 else 1, if x < base then x else x - base);
  }

  /** One word of the difference: at most one of the two tests finds a borrow. */
  lemma WordDifference(a: nat, b: nat, borrow: nat, d: nat, d2: nat, c: nat, base: nat)
    requires a < base && b < base && borrow <= 1
    requires d == (a - b) % base && d2 == (d - borrow) % base && c == if a < b || d < borrow then 1 else 0
    ensures a - b - borrow == d2 - base * c && d2 < base
  {
    Borrow(a - b, base);
    Borrow(d - borrow, base);
    assert base * c == if c == 1 then base else 0;
  }

  lemma Borrow(x: int, base: nat)
    requires x + base >= 0 && x < base
    ensures base > 0 ==> x % base == if x < 0 then x + base else x
  {
    if base > 0 {
      Remainder(x, base, if x < 0 then -1 else 0, if x < 0 then x + base else x);
    }
  }

  lemma NextSum(r: Words, a: Words, b: Words, carry: nat, s: nat, c: nat)
    requires |r| < |a| == |b| && Value(r) + Pow2(WORD * |r|) * carry == Value(a[..|r|]) + Value(b[..|r|])
    requires a[|r|] + b[|r|] + carry == s + Base() * c
    ensures Value(r + [s]) + Pow2(WORD * (|r| + 1)) * c == Value(a[..|r| + 1]) + Value(b[..|r| + 1])
  {
    var k := |r|;
    hide Pow2, Base, Value;
    NextValues(r, a, b, s);
    BaseIs();
    Pow2Add(WORD * k, WORD);
    SumColumn(Pow2(WORD * k), a[k], b[k], carry, s, Base(), c);
  }

  lemma NextValues(r: Words, a: Words, b: Words, s: nat)
    requires |r| < |a| == |b|
    ensures Value(r + [s]) == Value(r) + Pow2(WORD * |r|) * s
    ensures Value(a[..|r| + 1]) == Value(a[..|r|]) + Pow2(WORD * |r|) * a[|r|]
    ensures Value(b[..|r| + 1]) == Value(b[..|r|]) + Pow2(WORD * |r|) * b[|r|]
  {
    var k := |r|;
    assert a[..k + 1] == a[..k] + [a[k]] && b[..k + 1] == b[..k] + [b[k]];
    ValueAppend(r, s);
    ValueAppend(a[..k], a[k]);
    ValueAppend(b[..k], b[k]);
  }

  lemma SumColumn(p: nat, a: int, b: int, carry: int, s: int, base: int, c: int)
    requires a + b + carry == s + base * c
    ensures p * a + p * b + p * carry == p * s + (p * base) * c
  {
    Distribute(p, a, b);
    Distribute(p, a + b, carry);
    Distribute(p, s, base * c);
    Associate(p, base, c);
  }

  lemma NextDifference(r: Words, a: Words, b: Words, borrow: nat, d: nat, c: nat)
    requires |r| < |a| == |b| && Value(r) - Pow2(WORD * |r|) * borrow == Value(a[..|r|]) - Value(b[..|r|])
    requires a[|r|] - b[|r|] - borrow == d - Base() * c
    ensures Value(r + [d]) - Pow2(WORD * (|r| + 1)) * c == Value(a[..|r| + 1]) - Value(b[..|r| + 1])
  {
    var k := |r|;
    hide Pow2, Base, Value;
    NextValues(r, a, b, d);
    BaseIs();
    Pow2Add(WORD * k, WORD);
    SumColumn(Pow2(WORD * k), b[k], d, borrow, a[k], Base(), c);
  }

  /** operator+ */
  method Plus(a: Words, b: Words, top: nat) returns (r: Words)
    requires BitsOk(a, top) && BitsOk(b, top) && |a| == |b|
    ensures BitsOk(r, top) && |r| == |a|
    ensures Value(r) == (Value(a) + Value(b)) % Pow2(Width(|a|, top))
  {
    hide Value, Pow2, Base;
    Empty(a, b);
    r := [];
    var carry := 0;
    while |r| < |a|
      invariant |r| <= |a| && carry <= 1 && WordsOk(r)
      invariant Value(r) + Pow2(WORD * |r|) * carry == Value(a[..|r|]) + Value(b[..|r|])
    {
      var x, y := a[|r|], b[|r|];
      var s := (x + y) % Base();
      var s2 := (s + carry) % Base();
      var c := if s < x || s2 < s then 1 else 0;
      WordSum(x, y, carry, s, s2, c, Base());
      NextSum(r, a, b, carry, s2, c);
      r, carry := r + [s2], c;
    }
    assert a[..|r|] == a && b[..|r|] == b;
    MaskTopValue(r, top);
    TakenOff(Value(a) + Value(b), Value(r), carry, |r|, top);
    r := MaskTop(r, top);
  }

  /** operator- */
  method Minus(a: Words, b: Words, top: nat) returns (r: Words)
    requires BitsOk(a, top) && BitsOk(b, top) && |a| == |b|
    ensures BitsOk(r, top) && |r| == |a|
    ensures Value(r) == (Value(a) - Value(b)) % Pow2(Width(|a|, top))
  {
    hide Value, Pow2, Base;
    Empty(a, b);
    r := [];
    var borrow := 0;
    while |r| < |a|
      invariant |r| <= |a| && borrow <= 1 && WordsOk(r)
      invariant Value(r) - Pow2(WORD * |r|) * borrow == Value(a[..|r|]) - Value(b[..|r|])
    {
      var x, y := a[|r|], b[|r|];
      var d := (x - y) % Base();
      var d2 := (d - borrow) % Base();
      var c := if x < y || d < borrow then 1 else 0;
      WordDifference(x, y, borrow, d, d2, c, Base());
      NextDifference(r, a, b, borrow, d2, c);
      r, borrow := r + [d2], c;
    }
    assert a[..|r|] == a && b[..|r|] == b;
    MaskTopValue(r, top);
    TakenOff(Value(a) - Value(b), Value(r), -borrow, |r|, top);
    r := MaskTop(r, top);
  }

  lemma Empty(a: Words, b: Words)
    ensures Value([]) == 0 && Value(a[..0]) == 0 && Value(b[..0]) == 0
  {
  }

  /** A carry out of the last word does not count: 2^W divides its weight. */
  lemma TakenOff(exact: int, v: int, carry: int, n: nat, top: nat)
    requires n > 0 && top <= WORD && exact == v + Pow2(WORD * n) * carry
    ensures v % Pow2(Width(n, top)) == exact % Pow2(Width(n, top))
  {
    hide Pow2;
    assert WORD * n == Width(n, top) + (WORD - top);
    Pow2Add(Width(n, top), WORD - top);
    Associate(Pow2(Width(n, top)), Pow2(WORD - top), carry);
    Shift(v, Pow2(Width(n, top)), Pow2(WORD - top) * carry);
  }
}

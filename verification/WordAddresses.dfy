/** Addresses and data in word-level memory reads: at which widths a read lowers them, and when what
    it finds is what the memory's contents are. */
module WordAddresses {
  import opened Circuit
  import opened Modular
  import opened BitVec
  import opened BitBlast

  // ---- writes ---------------------------------------------------------------------------------

  /** The address or the datum of a write. A read lowers addresses at the width of its own address
      and data at the width of the entries: words (variables and reads) are cut or padded to that
      width, sums, offsets and constants are computed at it, and what carries a width of its own
      (an extract, a concatenation, an extension) keeps it. */
  datatype Operand =
    | Word(bits: BV)
    | Sum(fst: BV, snd: BV)
    | Offset(base: BV, add: int)
    | Number(val: nat)
    | Own(bits: BV)

  /** A memory: a variable, or a write over another memory. */
  datatype Mem =
    | Root(id: Name)
    | Put(below: Mem, at: Operand, stored: Operand)

  /** Contents of the memory variables, an entry for each number, and the width of the entries. A
      read address wider than the memory's own address width reads the entry of its number: nothing
      wraps it round. */
  type Contents = Name -> int -> int
  type Widths = Name -> nat

  function RootOf(m: Mem): Name {
    match m
    case Root(x) => x
    case Put(b, _, _) => RootOf(b)
  }

  function Max(a: nat, b: nat): nat {
    if a < b then b else a
  }

  /** The words an operand is made of. */
  function Parts(a: Operand): seq<BV> {
    match a
    case Word(b) => [b]
    case Sum(x, y) => [x, y]
    case Offset(b, _) => [b]
    case Number(_) => []
    case Own(b) => [b]
  }

  ghost function Nums(bs: seq<BV>, e: Env): (vs: seq<nat>)
    ensures |vs| == |bs| && forall k | 0 <= k < |bs| :: vs[k] == Num(bs[k], e)
  {
    seq(|bs|, k requires 0 <= k < |bs| => Num(bs[k], e))
  }

  /** The operand's own width; a constant has none. */
  function Width(a: Operand): nat {
    match a
    case Word(b) => |b|
    case Sum(x, y) => Max(|x|, |y|)
    case Offset(b, _) => |b|
    case Number(_) => 0
    case Own(b) => |b|
  }

  /** The number meant, from the values of its words: at its own width. */
  function Denoted(a: Operand, vs: seq<nat>): nat
    requires |vs| == |Parts(a)|
  {
    match a
    case Word(_) => vs[0]
    case Sum(_, _) => (vs[0] + vs[1]) % Pow2(Width(a))
    case Offset(_, k) => (vs[0] + k) % Pow2(Width(a))
    case Number(n) => n
    case Own(_) => vs[0]
  }

  /** The width of the operand lowered at width `n`. A width of 0 counts as none. */
  function LoweredWidth(a: Operand, n: nat): nat {
    match a
    case Word(_) => n
    case Sum(_, _) => if n == 0 then Width(a) else n
    case Offset(_, _) => if n == 0 then Width(a) else n
    case Number(_) => if n == 0 then 1 else n
    case Own(b) => |b|
  }

  /** Its value then. */
  function Lowered(a: Operand, n: nat, vs: seq<nat>): nat
    requires |vs| == |Parts(a)|
  {
    match a
    case Word(_) => vs[0] % Pow2(n)
    case Sum(_, _) => (vs[0] + vs[1]) % Pow2(LoweredWidth(a, n))
    case Offset(_, k) => (vs[0] + k) % Pow2(LoweredWidth(a, n))
    case Number(v) => v % Pow2(LoweredWidth(a, n))
    case Own(_) => vs[0]
  }

  /** The comparison made with a read address of width `n` and value `r`: on as many bits as the
      lowered write address has. */
  predicate Hits(a: Operand, vs: seq<nat>, n: nat, r: nat)
    requires |vs| == |Parts(a)|
  {
    Lowered(a, n, vs) == r % Pow2(LoweredWidth(a, n))
  }

  /** What the memory holds at an address: the last write there, cut to the width of an entry, or
      the variable's entry. */
  ghost function Lookup(m: Mem, r: nat, e: Env, c: Contents, dw: Widths): nat {
    match m
    case Root(x) => c(x)(r) % Pow2(dw(x))
    case Put(b, a, s) =>
      if Denoted(a, Nums(Parts(a), e)) == r then Denoted(s, Nums(Parts(s), e)) % Pow2(dw(RootOf(m)))
      else Lookup(b, r, e, c, dw)
  }

  /** What the chain computes: the datum as lowered at the width of an entry. */
  ghost function Chain(m: Mem, j: BV, e: Env, c: Contents, dw: Widths): nat {
    match m
    case Root(x) => c(x)(Num(j, e)) % Pow2(dw(x))
    case Put(b, a, s) =>
      if Hits(a, Nums(Parts(a), e), |j|, Num(j, e)) then Lowered(s, dw(RootOf(m)), Nums(Parts(s), e))
      else Chain(b, j, e, c, dw)
  }

  // ---- when operands fit ----------------------------------------------------------------------

  /** An address that a read of width `n` compares as it should: a word must not be wider than the
      read address, and what keeps its width not narrower; a sum must have the same width, or be
      unable to carry, and an offset the same width, or nothing to add; a constant must fit. */
  predicate FitsRead(a: Operand, n: nat) {
    match a
    case Word(b) => |b| <= n
    case Sum(x, y) => n == 0 || n == Width(a) || (n > Width(a) && (|x| == 0 || |y| == 0))
    case Offset(b, k) => n == 0 || n == |b| || (n > |b| && k % Pow2(n) == 0)
    case Number(v) => v < Pow2(n) || (n == 0 && v % 2 == 1)
    case Own(b) => |b| >= n
  }

  /** A datum that comes back from entries of width `d` cut as it should be: what keeps its width
      must not be wider than an entry, and an entry not wider than a sum that can carry or an offset
      that adds. */
  predicate FitsEntry(s: Operand, d: nat) {
    match s
    case Word(_) => true
    case Sum(x, y) => if d == 0 then Width(s) == 0 else d <= Width(s) || |x| == 0 || |y| == 0
    case Offset(b, k) => if d == 0 then |b| == 0 else d <= |b| || k % Pow2(d) == 0
    case Number(v) => d > 0 || v % 2 == 0
    case Own(b) => |b| <= d
  }

  predicate AddressesFit(m: Mem, n: nat) {
    match m
    case Root(_) => true
    case Put(b, a, _) => FitsRead(a, n) && AddressesFit(b, n)
  }

  /** Every datum fits, but for writes that are never seen: at an address of no width, below
      another one such. */
  predicate DataFit(m: Mem, d: nat, covered: bool) {
    match m
    case Root(_) => true
    case Put(b, a, s) => (FitsEntry(s, d) || (covered && NoWidth(a))) && DataFit(b, d, covered || NoWidth(a))
  }

  predicate NoWidth(a: Operand) {
    !a.Number? && Width(a) == 0
  }

  /** Values that words of these widths can have. */
  ghost predicate Sized(bs: seq<BV>, vs: seq<nat>) {
    |vs| == |bs| && forall k | 0 <= k < |bs| :: vs[k] < Pow2(|bs[k]|)
  }

  lemma NumsSized(bs: seq<BV>, e: Env)
    ensures Sized(bs, Nums(bs, e))
  {
    hide Num, Pow2;
    forall k | 0 <= k < |bs| ensures Num(bs[k], e) < Pow2(|bs[k]|) { NumBound(bs[k], e); }
  }

  lemma Pow2More(k: nat, n: nat)
    requires k <= n
    ensures Pow2(k) <= Pow2(n)
  {
    if k < n {
      Pow2More(k, n - 1);
    }
  }

  lemma Small(x: nat, k: nat, n: nat)
    requires x < Pow2(k) && k <= n
    ensures x < Pow2(n) && x % Pow2(n) == x
  {
    Pow2More(k, n);
    Remainder(x, Pow2(n), 0, x);
  }

  lemma Doubles(k: nat, n: nat)
    requires k < n
    ensures Pow2(k) < Pow2(n)
  {
    Pow2More(k + 1, n);
    Pow2Next(k);
  }

  lemma Empty()
    ensures Pow2(0) == 1
  {
  }

  /** Cutting at more bits first changes nothing. */
  lemma CutTwice(x: int, n: nat, w: nat)
    requires n <= w
    ensures (x % Pow2(w)) % Pow2(n) == x % Pow2(n)
  {
    hide Pow2;
    Pow2Add(n, w - n);
    var q := x / Pow2(w);
    assert x == x % Pow2(w) + Pow2(w) * q;
    Associate(Pow2(n), Pow2(w - n), q);
    CongShift(x, x % Pow2(w), Pow2(n), Pow2(w - n) * q);
  }

  /** What an operand is computed as before it is cut. */
  function Total(a: Operand, vs: seq<nat>): int
    requires (a.Sum? || a.Offset?) && |vs| == |Parts(a)|
  {
    if a.Sum? then vs[0] + vs[1] else vs[0] + a.add
  }

  /** At a larger width a sum that cannot carry and an offset of nothing keep their value. */
  lemma Uncarried(a: Operand, n: nat, vs: seq<nat>)
    requires Sized(Parts(a), vs) && n > Width(a)
    requires match a case Sum(x, y) => |x| == 0 || |y| == 0 case Offset(b, k) => k % Pow2(n) == 0 case _ => false
    ensures Total(a, vs) % Pow2(n) == Total(a, vs) % Pow2(Width(a)) < Pow2(Width(a))
  {
    hide Pow2;
    Empty();
    var w := Width(a);
    var v := if a.Sum? then vs[0] + vs[1] else vs[0];
    Small(v, w, w);
    Small(v, w, n);
    if a.Offset? {
      assert a.add == Pow2(n) * (a.add / Pow2(n));
      CongShift(v + a.add, v, Pow2(n), a.add / Pow2(n));
      CutTwice(v + a.add, w, n);
    }
  }

  /** An address that fits hits just where it should. */
  lemma FitHits(a: Operand, vs: seq<nat>, n: nat, r: nat)
    requires FitsRead(a, n) && Sized(Parts(a), vs) && r < Pow2(n)
    ensures Hits(a, vs, n, r) <==> Denoted(a, vs) == r
  {
    hide Pow2;
    match a
    case Word(b) =>
      Small(vs[0], |b|, n);
      Small(r, n, n);
    case Own(b) =>
      Small(r, n, |b|);
    case Number(v) =>
      if n == 0 {
        ZeroWidth(v, r);
      } else {
        Small(v, n, n);
        Small(r, n, n);
      }
    case Sum(_, _) => TotalHits(a, vs, n, r);
    case Offset(_, _) => TotalHits(a, vs, n, r);
  }

  lemma ZeroWidth(v: nat, r: nat)
    requires r < Pow2(0) && (v < Pow2(0) || v % 2 == 1)
    ensures (v % Pow2(1) == r % Pow2(1)) <==> v == r
  {
    assert Pow2(0) == 1 && Pow2(1) == 2;
  }

  lemma TotalHits(a: Operand, vs: seq<nat>, n: nat, r: nat)
    requires (a.Sum? || a.Offset?) && FitsRead(a, n) && Sized(Parts(a), vs) && r < Pow2(n)
    ensures Hits(a, vs, n, r) <==> Denoted(a, vs) == r
  {
    hide Pow2;
    if n == 0 {
      Small(r, 0, Width(a));
    } else {
      Small(r, n, n);
      if n > Width(a) { Uncarried(a, n, vs); }
    }
  }

  /** A datum that fits is lowered to what an entry holds of it. */
  lemma FitEntry(s: Operand, vs: seq<nat>, d: nat)
    requires FitsEntry(s, d) && Sized(Parts(s), vs)
    ensures Lowered(s, d, vs) == Denoted(s, vs) % Pow2(d)
  {
    hide Pow2;
    Empty();
    match s
    case Word(_) =>
    case Own(b) => Small(vs[0], |b|, d);
    case Number(v) => if d == 0 { EvenBit(v); }
    case Sum(_, _) => TotalEntry(s, vs, d);
    case Offset(_, _) => TotalEntry(s, vs, d);
  }

  lemma EvenBit(v: nat)
    requires v % 2 == 0
    ensures v % Pow2(1) == v % Pow2(0)
  {
    assert Pow2(0) == 1 && Pow2(1) == 2;
  }

  lemma TotalEntry(s: Operand, vs: seq<nat>, d: nat)
    requires (s.Sum? || s.Offset?) && FitsEntry(s, d) && Sized(Parts(s), vs)
    ensures Lowered(s, d, vs) == Denoted(s, vs) % Pow2(d)
  {
    hide Pow2;
    Empty();
    if d <= Width(s) {
      CutTwice(Total(s, vs), d, Width(s));
    } else {
      Uncarried(s, d, vs);
      Small(Denoted(s, vs), Width(s), d);
    }
  }

  /** When every address and every datum fits, the chain is the memory: in every state and for all
      contents. */
  lemma ChainExact(m: Mem, j: BV, e: Env, c: Contents, dw: Widths)
    requires AddressesFit(m, |j|) && DataFit(m, dw(RootOf(m)), false)
    ensures Chain(m, j, e, c, dw) == Lookup(m, Num(j, e), e, c, dw)
  {
    hide Num, Chain, Lookup, AddressesFit, DataFit;
    CoveredExact(m, j, e, c, dw, false);
  }

  /** Below a write at an address of no width only the other addresses matter. */
  lemma {:induction false} CoveredExact(m: Mem, j: BV, e: Env, c: Contents, dw: Widths, covered: bool)
    requires AddressesFit(m, |j|) && DataFit(m, dw(RootOf(m)), covered) && (covered ==> Num(j, e) != 0)
    ensures Chain(m, j, e, c, dw) == Lookup(m, Num(j, e), e, c, dw)
  {
    hide Num, Pow2, Hits, Denoted, Lowered, FitsRead, FitsEntry, NoWidth;
    match m
    case Root(_) =>
    case Put(b, a, s) =>
      NumsSized(Parts(a), e);
      NumsSized(Parts(s), e);
      NumBound(j, e);
      FitHits(a, Nums(Parts(a), e), |j|, Num(j, e));
      if NoWidth(a) { DenotesZero(a, Nums(Parts(a), e)); }
      if Hits(a, Nums(Parts(a), e), |j|, Num(j, e)) {
        FitEntry(s, Nums(Parts(s), e), dw(RootOf(m)));
      } else {
        CoveredExact(b, j, e, c, dw, covered || NoWidth(a));
      }
  }

  lemma DenotesZero(a: Operand, vs: seq<nat>)
    requires NoWidth(a) && Sized(Parts(a), vs)
    ensures Denoted(a, vs) == 0
  {
    Empty();
  }

  // ---- setting words ------------------------------------------------------------------------------

  ghost predicate IsBit(n: Name, word: Name, w: nat) {
    exists i | 0 <= i < w :: n == BitName(word, i)
  }

  /** The bits of a word set to a number's. */
  ghost function PutWord(e: Env, word: Name, n: int, w: nat): Env {
    (set x | x in e && !IsBit(x, word, w)) + set i | 0 <= i < w && HasBit(n, i) :: BitName(word, i)
  }

  lemma PutWordReads(e: Env, word: Name, n: int, w: nat)
    ensures Num(BvVar(word, w), PutWord(e, word, n, w)) == n % Pow2(w)
  {
    hide BitName, HasBit, Pow2, Num;
    var e' := PutWord(e, word, n, w);
    NumConst(n, w, e');
    forall i | 0 <= i < w ensures Eval(BvVar(word, w)[i], e') == Eval(BvConst(n, w)[i], e') {
      PutWordBit(e, word, n, w, i);
    }
    NumInjective(BvVar(word, w), BvConst(n, w), e');
  }

  lemma PutWordBit(e: Env, word: Name, n: int, w: nat, i: nat)
    requires i < w
    ensures BitName(word, i) in PutWord(e, word, n, w) <==> HasBit(n, i)
    ensures HasBit(n, i) <==> Eval(BvConst(n, w)[i], PutWord(e, word, n, w))
  {
    hide BitName;
    if BitName(word, i) in PutWord(e, word, n, w) {
      assert IsBit(BitName(word, i), word, w);
      var k :| 0 <= k < w && HasBit(n, k) && BitName(word, k) == BitName(word, i);
      BitNameUnique(word, k, word, i);
    }
  }

  lemma {:induction false} NumBits(b: BV, e: Env, e': Env)
    requires forall k | 0 <= k < |b| :: Eval(b[k], e) == Eval(b[k], e')
    ensures Num(b, e) == Num(b, e')
    decreases |b|
  {
    if b != [] {
      var k := |b| - 1;
      NumBits(b[..k], e, e');
    }
  }

  lemma FitValue(j: BV, w: nat, e: Env)
    ensures Num(Fit(j, w), e) == Num(j, e) % Pow2(w)
  {
    hide Fit;
    NumFit(j, w, e);
    Remainder(Num(Fit(j, w), e), Pow2(w), 0, Num(Fit(j, w), e));
  }

  // ---- values that an operand can have --------------------------------------------------------

  /** Values that make the operand mean `r`. */
  function Meant(a: Operand, r: nat): (vs: seq<nat>)
    requires !a.Number?
    ensures |vs| == |Parts(a)|
  {
    match a
    case Word(_) => [r]
    case Sum(x, y) => if |x| < |y| then [0, r] else [r, 0]
    case Offset(b, k) => [(r - k) % Pow2(|b|)]
    case Own(_) => [r]
  }

  lemma MeantDenotes(a: Operand, r: nat)
    requires !a.Number? && r < Pow2(Width(a))
    ensures Sized(Parts(a), Meant(a, r)) && Denoted(a, Meant(a, r)) == r
  {
    hide Pow2;
    Small(r, Width(a), Width(a));
    if a.Offset? {
      var p := Pow2(|a.base|);
      CongMod(r - a.add, p);
      CongAdd((r - a.add) % p, r - a.add, a.add, a.add, p);
    }
  }

  /** Values that show, at a larger width, what the operand's own width cuts off. */
  lemma Carried(a: Operand, n: nat) returns (vs: seq<nat>)
    requires n > Width(a)
    requires match a case Sum(x, y) => |x| > 0 && |y| > 0 case Offset(b, k) => k % Pow2(n) != 0 case _ => false
    ensures Sized(Parts(a), vs) && 0 < Total(a, vs) % Pow2(n) != Total(a, vs) % Pow2(Width(a))
  {
    hide Pow2;
    var w := Width(a);
    Doubles(w, n);
    Empty();
    match a
    case Sum(x, y) =>
      Doubles(0, |x|);
      Doubles(0, |y|);
      vs := if |x| < |y| then [1, Pow2(w) - 1] else [Pow2(w) - 1, 1];
      Remainder(Pow2(w), Pow2(w), 1, 0);
      Small(Pow2(w), n, n);
    case Offset(b, k) =>
      var low := k % Pow2(n);
      CongMod(k, Pow2(n));
      if low >= Pow2(w) {
        vs := [0];
      } else {
        vs := [Pow2(w) - low];
        CongAdd(Pow2(w) - low, Pow2(w) - low, low, k, Pow2(n));
        Remainder(Pow2(w), Pow2(n), 0, Pow2(w));
        CutTwice(Pow2(w) - low + k, w, n);
        Remainder(Pow2(w), Pow2(w), 1, 0);
      }
  }

  /** An address that does not fit hits where it should not. */
  lemma Misfit(a: Operand, n: nat) returns (vs: seq<nat>, r: nat)
    requires n > 0 && !FitsRead(a, n) && !a.Number?
    ensures Sized(Parts(a), vs) && 0 < r < Pow2(n) && Hits(a, vs, n, r) && Denoted(a, vs) != r
  {
    hide Pow2, Total, Meant;
    if a.Own? {
      vs, r := [0], Pow2(|a.bits|);
      Remainder(r, r, 1, 0);
      Doubles(|a.bits|, n);
    } else if n < Width(a) {
      vs, r := Meant(a, Pow2(n) + 1), 1;
      Above(n, Width(a));
      MeantDenotes(a, Pow2(n) + 1);
      if !a.Word? { CutTwice(Total(a, vs), n, Width(a)); }
      TotalIs(a, n, vs);
    } else {
      vs := Carried(a, n);
      r := Total(a, vs) % Pow2(n);
      Small(r, n, n);
      TotalIs(a, n, vs);
    }
  }

  lemma TotalIs(a: Operand, n: nat, vs: seq<nat>)
    requires n > 0 && |vs| == |Parts(a)|
    ensures a.Sum? || a.Offset? ==>
      Lowered(a, n, vs) == Total(a, vs) % Pow2(n) && Denoted(a, vs) == Total(a, vs) % Pow2(Width(a))
    ensures a.Word? ==> Lowered(a, n, vs) == Denoted(a, vs) % Pow2(n)
  {
  }

  /** 2^n + 1 fits in more than n bits, and looks like 1 in n of them. */
  lemma Above(n: nat, w: nat)
    requires 0 < n < w
    ensures Pow2(n) + 1 < Pow2(w) && (Pow2(n) + 1) % Pow2(n) == 1 && 1 < Pow2(n) && 1 % Pow2(n) == 1
  {
    hide Pow2;
    Doubles(0, n);
    Empty();
    Pow2More(n + 1, w);
    Pow2Next(n);
    Remainder(Pow2(n) + 1, Pow2(n), 1, 1);
    Remainder(1, Pow2(n), 0, 1);
  }

  /** A datum that does not fit comes back as more than an entry holds of it. */
  lemma EntryMisfit(s: Operand, d: nat) returns (vs: seq<nat>)
    requires d > 0 && !FitsEntry(s, d)
    ensures Sized(Parts(s), vs) && Lowered(s, d, vs) != Denoted(s, vs) % Pow2(d)
  {
    hide Pow2, Total;
    if s.Own? {
      vs := [Pow2(d)];
      Doubles(d, |s.bits|);
      Remainder(Pow2(d), Pow2(d), 1, 0);
    } else {
      vs := Carried(s, d);
      TotalIs(s, d, vs);
      Small(Total(s, vs) % Pow2(Width(s)), Width(s), d);
    }
  }

  // ---- when the chain is wrong ----------------------------------------------------------------

  /** The words of all the write addresses. */
  function AddressParts(m: Mem): seq<BV> {
    match m
    case Root(_) => []
    case Put(b, a, _) => Parts(a) + AddressParts(b)
  }

  /** The words of all the data. */
  function DataParts(m: Mem): seq<BV> {
    match m
    case Root(_) => []
    case Put(b, _, s) => Parts(s) + DataParts(b)
  }

  /** No write is at a constant. */
  predicate NoNumbers(m: Mem) {
    match m
    case Root(_) => true
    case Put(b, a, _) => !a.Number? && NoNumbers(b)
  }

  /** The words of the write addresses and the read address can have any values together. */
  ghost predicate AddressesIndependent(m: Mem, j: BV) {
    forall vs: seq<nat>, r: nat | Sized(AddressParts(m), vs) && r < Pow2(|j|) :: AddressesSettable(m, j, vs, r)
  }

  ghost predicate AddressesSettable(m: Mem, j: BV, vs: seq<nat>, r: nat) {
    exists e: Env :: Nums(AddressParts(m), e) == vs && Num(j, e) == r
  }

  /** And those of the data with them. */
  ghost predicate Independent(m: Mem, j: BV) {
    forall vs: seq<nat>, ds: seq<nat>, r: nat | Sized(AddressParts(m), vs) && Sized(DataParts(m), ds)
        && r < Pow2(|j|) ::
      Settable(m, j, vs, ds, r)
  }

  ghost predicate Settable(m: Mem, j: BV, vs: seq<nat>, ds: seq<nat>, r: nat) {
    exists e: Env :: Nums(AddressParts(m), e) == vs && Nums(DataParts(m), e) == ds && Num(j, e) == r
  }

  lemma IndependentAddresses(m: Mem, j: BV)
    requires Independent(m, j)
    ensures AddressesIndependent(m, j)
  {
    hide Num, Pow2;
    forall vs: seq<nat>, r: nat | Sized(AddressParts(m), vs) && r < Pow2(|j|) ensures AddressesSettable(m, j, vs, r) {
      SizedZeros(DataParts(m));
      assert Settable(m, j, vs, AllZero(|DataParts(m)|), r);
    }
  }

  function AllZero(n: nat): (vs: seq<nat>)
    ensures |vs| == n && forall k | 0 <= k < n :: vs[k] == 0
  {
    seq(n, _ => 0)
  }

  lemma SizedZeros(bs: seq<BV>)
    ensures Sized(bs, AllZero(|bs|))
  {
  }

  lemma SizedBoth(bs: seq<BV>, cs: seq<BV>, vs: seq<nat>, ws: seq<nat>)
    requires Sized(bs, vs) && Sized(cs, ws)
    ensures Sized(bs + cs, vs + ws)
  {
  }

  lemma SplitNums(bs: seq<BV>, cs: seq<BV>, e: Env, vs: seq<nat>, ws: seq<nat>)
    requires Nums(bs + cs, e) == vs + ws && |vs| == |bs|
    ensures Nums(bs, e) == vs && Nums(cs, e) == ws
  {
    hide Num;
    var all := bs + cs;
    forall k | 0 <= k < |bs| ensures Num(bs[k], e) == vs[k] { assert all[k] == bs[k]; }
    forall k | 0 <= k < |cs| ensures Num(cs[k], e) == ws[k] { assert all[|bs| + k] == cs[k]; }
  }

  /** Values that make every address mean 0. */
  function Zeros(m: Mem): (vs: seq<nat>)
    requires NoNumbers(m)
    ensures |vs| == |AddressParts(m)|
  {
    match m
    case Root(_) => []
    case Put(b, a, _) => Meant(a, 0) + Zeros(b)
  }

  lemma {:induction false} ZerosSized(m: Mem)
    requires NoNumbers(m)
    ensures Sized(AddressParts(m), Zeros(m))
  {
    hide Meant;
    match m
    case Root(_) =>
    case Put(b, a, _) =>
      MeantDenotes(a, 0);
      ZerosSized(b);
      SizedBoth(Parts(a), AddressParts(b), Meant(a, 0), Zeros(b));
  }

  /** With every address 0 a read elsewhere falls through to the variable. */
  lemma {:induction false} FallsThrough(m: Mem, r: nat, e: Env, c: Contents, dw: Widths)
    requires NoNumbers(m) && r > 0 && Nums(AddressParts(m), e) == Zeros(m)
    ensures Lookup(m, r, e, c, dw) == c(RootOf(m))(r) % Pow2(dw(RootOf(m)))
  {
    hide Num, Denoted, Meant;
    match m
    case Root(_) =>
    case Put(b, a, _) =>
      SplitNums(Parts(a), AddressParts(b), e, Meant(a, 0), Zeros(b));
      MeantDenotes(a, 0);
      FallsThrough(b, r, e, c, dw);
  }

  /** The chain returns the datum `s` of a write where the memory has the entry of its variable. */
  ghost predicate Strays(m: Mem, j: BV, r: nat, s: Operand, e: Env, c: Contents, dw: Widths) {
    && Chain(m, j, e, c, dw) == Lowered(s, dw(RootOf(m)), Nums(Parts(s), e))
    && Lookup(m, r, e, c, dw) == c(RootOf(m))(r) % Pow2(dw(RootOf(m)))
  }

  /** These values of the addresses make the chain stray. */
  ghost predicate Astray(m: Mem, n: nat, vs: seq<nat>, r: nat, s: Operand) {
    forall j, e, c, dw | |j| == n && Nums(AddressParts(m), e) == vs && Num(j, e) == r :: Strays(m, j, r, s, e, c, dw)
  }

  /** With an address that does not fit there are such values. */
  lemma {:induction false} SomeAstray(m: Mem, n: nat) returns (vs: seq<nat>, r: nat, s: Operand)
    requires n > 0 && NoNumbers(m) && !AddressesFit(m, n)
    ensures Sized(AddressParts(m), vs) && 0 < r < Pow2(n) && Astray(m, n, vs, r, s)
    decreases m
  {
    hide Num, Pow2, Denoted, Lowered, Hits, FitsRead, Chain, Meant;
    var b, a := m.below, m.at;
    if FitsRead(a, n) {
      var ws;
      ws, r, s := SomeAstray(b, n);
      var zs := Meant(a, 0);
      vs := zs + ws;
      MeantDenotes(a, 0);
      SizedBoth(Parts(a), AddressParts(b), zs, ws);
      forall j, e, c, dw | |j| == n && Nums(AddressParts(m), e) == vs && Num(j, e) == r
          ensures Strays(m, j, r, s, e, c, dw) {
        SplitNums(Parts(a), AddressParts(b), e, zs, ws);
        FitHits(a, zs, n, r);
        assert Strays(b, j, r, s, e, c, dw);
        ChainPut(m, j, e, c, dw);
      }
    } else {
      var ws;
      ws, r := Misfit(a, n);
      s := m.stored;
      vs := ws + Zeros(b);
      ZerosSized(b);
      SizedBoth(Parts(a), AddressParts(b), ws, Zeros(b));
      forall j, e, c, dw | |j| == n && Nums(AddressParts(m), e) == vs && Num(j, e) == r
          ensures Strays(m, j, r, s, e, c, dw) {
        SplitNums(Parts(a), AddressParts(b), e, ws, Zeros(b));
        FallsThrough(b, r, e, c, dw);
        ChainPut(m, j, e, c, dw);
      }
    }
  }

  lemma ChainPut(m: Mem, j: BV, e: Env, c: Contents, dw: Widths)
    requires m.Put?
    ensures Chain(m, j, e, c, dw) ==
      if Hits(m.at, Nums(Parts(m.at), e), |j|, Num(j, e))
          then Lowered(m.stored, dw(RootOf(m)), Nums(Parts(m.stored), e))
      else Chain(m.below, j, e, c, dw)
  {
  }

  /** These values of the addresses and the data make the chain return what no entry holds. */
  ghost predicate Spoilt(m: Mem, n: nat, d: nat, vs: seq<nat>, ds: seq<nat>, r: nat) {
    forall j, e, c, dw: Widths | |j| == n && dw(RootOf(m)) == d && Nums(AddressParts(m), e) == vs
        && Nums(DataParts(m), e) == ds && Num(j, e) == r ::
      !ReadRight(m, j, e, c, dw)
  }

  ghost predicate ReadRight(m: Mem, j: BV, e: Env, c: Contents, dw: Widths) {
    Chain(m, j, e, c, dw) == Lookup(m, Num(j, e), e, c, dw)
  }

  /** With a datum that does not fit, of a write that can be seen, there are such values. */
  lemma {:induction false} SomeSpoilt(m: Mem, n: nat, d: nat, covered: bool)
      returns (vs: seq<nat>, ds: seq<nat>, r: nat)
    requires n > 0 && d > 0 && NoNumbers(m) && AddressesFit(m, n) && !DataFit(m, d, covered)
    ensures Sized(AddressParts(m), vs) && Sized(DataParts(m), ds) && r < Pow2(n) && (covered ==> r > 0)
    ensures Spoilt(m, n, d, vs, ds, r)
    decreases m
  {
    hide Num, Pow2, Denoted, Lowered, Hits, FitsRead, FitsEntry, Chain, Lookup, Meant;
    var b, a, s := m.below, m.at, m.stored;
    var ws, es, zs, xs;
    TwoValues(n);
    Empty();
    if DataFit(b, d, covered || NoWidth(a)) {
      r := if NoWidth(a) then 0 else 1;
      SomeValues(a, r);
      zs, ws, es := Meant(a, r), Zeros(b), AllZero(|DataParts(b)|);
      xs := EntryMisfit(s, d);
      ZerosSized(b);
      SizedZeros(DataParts(b));
    } else {
      ws, es, r := SomeSpoilt(b, n, d, covered || NoWidth(a));
      var q := if r == 0 then 1 else 0;
      SomeValues(a, q);
      zs, xs := Meant(a, q), AllZero(|Parts(s)|);
      SizedZeros(Parts(s));
    }
    vs, ds := zs + ws, xs + es;
    SizedBoth(Parts(a), AddressParts(b), zs, ws);
    SizedBoth(Parts(s), DataParts(b), xs, es);
    forall j, e, c, dw: Widths
      | |j| == n && dw(RootOf(m)) == d && Nums(AddressParts(m), e) == vs && Nums(DataParts(m), e) == ds
          && Num(j, e) == r
      ensures !ReadRight(m, j, e, c, dw)
    {
      SplitNums(Parts(a), AddressParts(b), e, zs, ws);
      SplitNums(Parts(s), DataParts(b), e, xs, es);
      FitHits(a, zs, n, r);
      ChainPut(m, j, e, c, dw);
      LookupPut(m, r, e, c, dw);
      if !DataFit(b, d, covered || NoWidth(a)) { assert !ReadRight(b, j, e, c, dw); }
    }
  }

  lemma SomeValues(a: Operand, r: nat)
    requires !a.Number? && r <= 1 && (NoWidth(a) ==> r == 0)
    ensures Sized(Parts(a), Meant(a, r)) && Denoted(a, Meant(a, r)) == r
  {
    hide Pow2;
    Empty();
    if Width(a) > 0 { TwoValues(Width(a)); }
    MeantDenotes(a, r);
  }

  lemma LookupPut(m: Mem, r: nat, e: Env, c: Contents, dw: Widths)
    requires m.Put?
    ensures Lookup(m, r, e, c, dw) ==
      if Denoted(m.at, Nums(Parts(m.at), e)) == r then Denoted(m.stored, Nums(Parts(m.stored), e)) % Pow2(dw(RootOf(m)))
      else Lookup(m.below, r, e, c, dw)
  {
  }

  /** Whatever the data: some read at independent addresses is wrong if an address does not fit. */
  lemma AddressesMustFit(m: Mem, j: BV, dw: Widths)
    requires AddressesIndependent(m, j) && NoNumbers(m) && |j| > 0 && dw(RootOf(m)) > 0
    requires !AddressesFit(m, |j|)
    ensures exists e, c :: !ReadRight(m, j, e, c, dw)
  {
    hide Num, Pow2, Chain, Lookup, AddressesFit, Lowered;
    var vs, r, s := SomeAstray(m, |j|);
    assert AddressesSettable(m, j, vs, r);
    var e: Env :| Nums(AddressParts(m), e) == vs && Num(j, e) == r;
    var other := if Lowered(s, dw(RootOf(m)), Nums(Parts(s), e)) == 0 then 1 else 0;
    var c: Contents := z => k => other;
    TwoValues(dw(RootOf(m)));
    Remainder(other, Pow2(dw(RootOf(m))), 0, other);
    assert Strays(m, j, r, s, e, c, dw);
    assert !ReadRight(m, j, e, c, dw);
  }

  lemma DataMustFit(m: Mem, j: BV, dw: Widths)
    requires Independent(m, j) && NoNumbers(m) && |j| > 0 && dw(RootOf(m)) > 0
    requires AddressesFit(m, |j|) && !DataFit(m, dw(RootOf(m)), false)
    ensures exists e, c :: !ReadRight(m, j, e, c, dw)
  {
    hide Num, Pow2, ReadRight, AddressesFit, DataFit;
    var vs, ds, r := SomeSpoilt(m, |j|, dw(RootOf(m)), false);
    assert Settable(m, j, vs, ds, r);
    var e: Env :| Nums(AddressParts(m), e) == vs && Nums(DataParts(m), e) == ds && Num(j, e) == r;
    var c: Contents := z => k => 0;
    assert !ReadRight(m, j, e, c, dw);
  }

  /** Reads of a memory whose words are independent are right, in every state and for all contents,
      if and only if every write address fits the read address and every datum that can be seen
      fits the entries. */
  lemma ReadsRightIff(m: Mem, j: BV, dw: Widths)
    requires Independent(m, j) && NoNumbers(m) && |j| > 0 && dw(RootOf(m)) > 0
    ensures (forall e, c :: ReadRight(m, j, e, c, dw)) <==> AddressesFit(m, |j|) && DataFit(m, dw(RootOf(m)), false)
  {
    hide Num, Pow2, Chain, Lookup, AddressesFit, DataFit, AddressesIndependent, Independent;
    if !AddressesFit(m, |j|) {
      IndependentAddresses(m, j);
      AddressesMustFit(m, j, dw);
    } else if !DataFit(m, dw(RootOf(m)), false) {
      DataMustFit(m, j, dw);
    } else {
      forall e, c ensures ReadRight(m, j, e, c, dw) { ChainExact(m, j, e, c, dw); }
    }
  }

  lemma TwoValues(w: nat)
    requires w > 0
    ensures Pow2(w) > 1
  {
    Doubles(0, w);
    Empty();
  }

  /** A write at a constant: right if and only if the constant fits the read, and the datum the
      entries unless the constant is beyond every read. */
  lemma NumberIff(x: Name, v: nat, s: Operand, j: BV, dw: Widths)
    requires dw(x) > 0 && Independent(Put(Root(x), Number(v), s), j)
    ensures (forall e, c :: ReadRight(Put(Root(x), Number(v), s), j, e, c, dw)) <==>
            FitsRead(Number(v), |j|) && (v >= Pow2(|j|) || FitsEntry(s, dw(x)))
  {
    hide Num, Pow2, FitsRead, FitsEntry, Hits, Lowered, Independent, ReadRight;
    var m, n := Put(Root(x), Number(v), s), |j|;
    if !FitsRead(Number(v), n) {
      var r := NumberMisfit(v, n);
      SizedZeros(Parts(s));
      NumberWrong(m, j, dw, AllZero(|Parts(s)|), r);
    } else if v < Pow2(n) && !FitsEntry(s, dw(x)) {
      var ds := EntryMisfit(s, dw(x));
      FitHits(Number(v), [], n, v);
      NumberWrong(m, j, dw, ds, v);
    } else {
      forall e, c ensures ReadRight(m, j, e, c, dw) { NumberRight(m, j, e, c, dw); }
    }
  }

  lemma NumberRight(m: Mem, j: BV, e: Env, c: Contents, dw: Widths)
    requires m.Put? && m.below.Root? && m.at.Number? && FitsRead(m.at, |j|)
    requires m.at.val >= Pow2(|j|) || FitsEntry(m.stored, dw(m.below.id))
    ensures ReadRight(m, j, e, c, dw)
  {
    hide Num, Pow2, FitsRead, FitsEntry, Hits, Lowered;
    assert Nums(Parts(m.at), e) == [];
    NumBound(j, e);
    FitHits(m.at, [], |j|, Num(j, e));
    ChainPut(m, j, e, c, dw);
    LookupPut(m, Num(j, e), e, c, dw);
    if m.at.val < Pow2(|j|) {
      NumsSized(Parts(m.stored), e);
      FitEntry(m.stored, Nums(Parts(m.stored), e), dw(m.below.id));
    }
  }

  /** A read at `r` that hits goes wrong: at another address, or with a datum that does not fit. */
  lemma NumberWrong(m: Mem, j: BV, dw: Widths, ds: seq<nat>, r: nat)
    requires m.Put? && m.below.Root? && m.at.Number? && Independent(m, j) && dw(m.below.id) > 0 && r < Pow2(|j|)
    requires |ds| == |Parts(m.stored)| && Sized(Parts(m.stored), ds) && Hits(m.at, [], |j|, r)
    requires r != m.at.val || Lowered(m.stored, dw(m.below.id), ds) != Denoted(m.stored, ds) % Pow2(dw(m.below.id))
    ensures exists e, c :: !ReadRight(m, j, e, c, dw)
  {
    hide Num, Pow2, Hits, Lowered, Chain, Lookup, Independent, Parts;
    var x := m.below.id;
    var e := OneSet(m, j, ds, r);
    var other := if Lowered(m.stored, dw(x), ds) == 0 then 1 else 0;
    var c: Contents := z => k => other;
    TwoValues(dw(x));
    Remainder(other, Pow2(dw(x)), 0, other);
    ChainPut(m, j, e, c, dw);
    LookupPut(m, r, e, c, dw);
    RootLookup(x, r, e, c, dw);
    assert !ReadRight(m, j, e, c, dw);
  }

  lemma RootLookup(x: Name, r: nat, e: Env, c: Contents, dw: Widths)
    ensures Lookup(Root(x), r, e, c, dw) == c(x)(r) % Pow2(dw(x))
  {
  }

  lemma OneSet(m: Mem, j: BV, ds: seq<nat>, r: nat) returns (e: Env)
    requires m.Put? && m.below.Root? && m.at.Number? && Independent(m, j) && r < Pow2(|j|) && Sized(Parts(m.stored), ds)
    ensures Nums(Parts(m.at), e) == [] && Nums(Parts(m.stored), e) == ds && Num(j, e) == r
  {
    hide Num, Pow2;
    assert AddressParts(m.below) == [] && DataParts(m.below) == [];
    assert Parts(m.stored) + [] == Parts(m.stored);
    assert AddressParts(m) == [] && DataParts(m) == Parts(m.stored);
    assert Sized(AddressParts(m), []) && Sized(DataParts(m), ds);
    assert Settable(m, j, [], ds, r);
    e :| Nums(AddressParts(m), e) == [] && Nums(DataParts(m), e) == ds && Num(j, e) == r;
  }

  lemma NumberMisfit(v: nat, n: nat) returns (r: nat)
    requires !FitsRead(Number(v), n)
    ensures r < Pow2(n) && r != v && Hits(Number(v), [], n, r)
  {
    hide Pow2;
    r := if n == 0 then 0 else v % Pow2(n);
    if n == 0 {
      ZeroMisfit(v);
    } else {
      Small(r, n, n);
    }
  }

  lemma ZeroMisfit(v: nat)
    requires v >= Pow2(0) && v % 2 == 0
    ensures v != 0 && Pow2(0) == 1 && v % Pow2(1) == 0 % Pow2(1)
  {
    assert Pow2(0) == 1 && Pow2(1) == 2;
  }

  // ---- words of the design --------------------------------------------------------------------

  /** Distinct words. */
  ghost predicate DistinctWords(bs: seq<BV>, xs: seq<Name>) {
    && |xs| == |bs| && (forall k | 0 <= k < |bs| :: bs[k] == BvVar(xs[k], |bs[k]|))
    && forall i, k | 0 <= i < k < |xs| :: xs[i] != xs[k]
  }

  /** Distinct words are independent. */
  lemma WordsIndependent(m: Mem, j: BV, xs: seq<Name>)
    requires DistinctWords((AddressParts(m) + DataParts(m)) + [j], xs)
    ensures Independent(m, j)
  {
    hide Num, Pow2, DistinctWords;
    var ps, qs := AddressParts(m), DataParts(m);
    var bs := (ps + qs) + [j];
    forall vs: seq<nat>, ds: seq<nat>, r: nat | Sized(ps, vs) && Sized(qs, ds) && r < Pow2(|j|)
        ensures Settable(m, j, vs, ds, r) {
      var all := (vs + ds) + [r];
      SizedBoth(ps, qs, vs, ds);
      SizedBoth(ps + qs, [j], vs + ds, [r]);
      var e := SetAll(bs, xs, all, |bs|);
      assert Nums(bs, e) == all;
      SplitNums(ps + qs, [j], e, vs + ds, [r]);
      SplitNums(ps, qs, e, vs, ds);
      assert Nums([j], e)[0] == r;
    }
  }

  /** The first `n` words set. */
  lemma {:induction false} SetAll(bs: seq<BV>, xs: seq<Name>, vs: seq<nat>, n: nat) returns (e: Env)
    requires DistinctWords(bs, xs) && Sized(bs, vs) && n <= |bs|
    ensures forall k | 0 <= k < n :: Num(bs[k], e) == vs[k]
    decreases n
  {
    hide Num, Pow2;
    if n == 0 {
      e := {};
    } else {
      var i := n - 1;
      var e0 := SetAll(bs, xs, vs, i);
      e := PutWord(e0, xs[i], vs[i], |bs[i]|);
      PutWordReads(e0, xs[i], vs[i], |bs[i]|);
      Small(vs[i], |bs[i]|, |bs[i]|);
      forall k | 0 <= k < i ensures Num(bs[k], e) == vs[k] {
        OtherWord(e0, xs[i], vs[i], |bs[i]|, xs[k], |bs[k]|);
      }
    }
  }

  /** Setting one word leaves another. */
  lemma OtherWord(e: Env, x: Name, v: nat, w: nat, y: Name, n: nat)
    requires x != y
    ensures Num(BvVar(y, n), PutWord(e, x, v, w)) == Num(BvVar(y, n), e)
  {
    hide Num, BitName, HasBit;
    var e' := PutWord(e, x, v, w);
    forall k | 0 <= k < n ensures Eval(BvVar(y, n)[k], e) == Eval(BvVar(y, n)[k], e') {
      NotItsBit(x, w, y, k);
      OtherBit(e, x, v, w, BitName(y, k));
    }
    NumBits(BvVar(y, n), e, e');
  }

  lemma OtherBit(e: Env, x: Name, v: nat, w: nat, z: Name)
    requires !IsBit(z, x, w)
    ensures z in PutWord(e, x, v, w) <==> z in e
  {
    hide BitName, HasBit;
  }

  lemma NotItsBit(x: Name, w: nat, y: Name, k: nat)
    requires x != y
    ensures !IsBit(BitName(y, k), x, w)
  {
    hide BitName;
    if i :| 0 <= i < w && BitName(y, k) == BitName(x, i) {
      BitNameUnique(y, k, x, i);
    }
  }

  // ---- three inputs --------------------------------------------------------------------------------

  /** Two words set. */
  lemma TwoSet(x: Name, v: nat, y: Name, u: nat) returns (e: Env)
    requires x != y && v < Pow2(8) && u < Pow2(8)
    ensures Num(BvVar(x, 8), e) == v && Num(BvVar(y, 8), e) == u
  {
    hide Num, Pow2, BitName;
    var e0 := PutWord({}, x, v, 8);
    e := PutWord(e0, y, u, 8);
    PutWordReads({}, x, v, 8);
    PutWordReads(e0, y, u, 8);
    Small(v, 8, 8);
    Small(u, 8, 8);
    OtherWord(e0, y, u, 8, x, 8);
  }

  lemma LowNibble(b: BV, e: Env, v: nat)
    requires |b| == 8 && Num(b, e) == v
    ensures Num(b[..4], e) == v % 16
  {
    hide Num;
    FitValue(b, 4, e);
    assert Fit(b, 4) == b[..4];
    Sixteen();
  }

  lemma Sixteen()
    ensures Pow2(4) == 16 && Pow2(8) == 256 && Pow2(9) == 512
  {
    assert Pow2(1) == 2 && Pow2(2) == 4 && Pow2(3) == 8 && Pow2(4) == 16;
    assert Pow2(5) == 32 && Pow2(6) == 64 && Pow2(7) == 128;
  }

  /** A write at the low four bits of `a`, 0x3, is seen by a read of the word `b` at 0x13. */
  lemma NarrowWrite(s: Operand, c: Contents, dw: Widths) returns (e: Env)
    ensures var m, j := Put(Root("m"), Own(BvVar("a", 8)[..4]), s), BvVar("b", 8);
      && Num(BvVar("a", 8)[..4], e) == 0x3 && Num(j, e) == 0x13
      && Chain(m, j, e, c, dw) == Lowered(s, dw("m"), Nums(Parts(s), e))
          && Lookup(m, Num(j, e), e, c, dw) == c("m")(0x13) % Pow2(dw("m"))
  {
    hide Num, Pow2, Denoted, Hits;
    Sixteen();
    e := TwoSet("a", 0x3, "b", 0x13);
    LowNibble(BvVar("a", 8), e, 0x3);
    Strays1(Own(BvVar("a", 8)[..4]), s, BvVar("b", 8), 0x3, 0x13, e, c, dw);
  }

  /** A write at the word `a`, 0x13, is seen by a read at the low four bits of `b`, 0x3. */
  lemma NarrowRead(s: Operand, c: Contents, dw: Widths) returns (e: Env)
    ensures var m, j := Put(Root("m"), Word(BvVar("a", 8)), s), BvVar("b", 8)[..4];
      && Num(BvVar("a", 8), e) == 0x13 && Num(j, e) == 0x3
      && Chain(m, j, e, c, dw) == Lowered(s, dw("m"), Nums(Parts(s), e))
          && Lookup(m, Num(j, e), e, c, dw) == c("m")(0x3) % Pow2(dw("m"))
  {
    hide Num, Pow2, Denoted, Hits;
    Sixteen();
    e := TwoSet("a", 0x13, "b", 0x3);
    LowNibble(BvVar("b", 8), e, 0x3);
    Strays1(Word(BvVar("a", 8)), s, BvVar("b", 8)[..4], 0x13, 0x3, e, c, dw);
  }

  lemma Strays1(a: Operand, s: Operand, j: BV, v: nat, r: nat, e: Env, c: Contents, dw: Widths)
    requires (a.Own? && |a.bits| == 4) || (a.Word? && |j| == 4)
    requires Num(a.bits, e) == v && Num(j, e) == r && v % 16 == r % 16 && v != r && (a.Own? ==> v < 16)
    ensures Chain(Put(Root("m"), a, s), j, e, c, dw) == Lowered(s, dw("m"), Nums(Parts(s), e))
    ensures Lookup(Put(Root("m"), a, s), r, e, c, dw) == c("m")(r) % Pow2(dw("m"))
  {
    hide Num, Pow2, Chain, Lookup, Hits, Denoted, Lowered;
    assert Nums(Parts(a), e) == [v];
    HitsLow(a, v, |j|, r);
    var m := Put(Root("m"), a, s);
    ChainPut(m, j, e, c, dw);
    LookupPut(m, r, e, c, dw);
    RootLookup("m", r, e, c, dw);
  }

  lemma HitsLow(a: Operand, v: nat, n: nat, r: nat)
    requires (a.Own? && |a.bits| == 4) || (a.Word? && n == 4)
    requires v % 16 == r % 16 && (a.Own? ==> v < 16)
    ensures Hits(a, [v], n, r) && Denoted(a, [v]) == v
  {
    hide Pow2;
    Sixteen();
  }

  /** The low sixteen bits of `d`, 0x100, written to a memory of bytes, are read back as 0x100. */
  lemma WideDatum(c: Contents, dw: Widths) returns (e: Env)
    requires dw("m") == 8
    ensures var m, j := Put(Root("m"), Word(BvVar("a", 8)), Own(BvVar("d", 32)[..16])), BvVar("a", 8);
      Chain(m, j, e, c, dw) == 0x100 && Lookup(m, Num(j, e), e, c, dw) == 0
  {
    hide Num, Pow2;
    var d, j := BvVar("d", 32), BvVar("a", 8);
    var s, a := Own(d[..16]), Word(j);
    var m := Put(Root("m"), a, s);
    e := PutWord({}, "d", 0x100, 32);
    PutWordReads({}, "d", 0x100, 32);
    Sixteen();
    Small(0x100, 9, 16);
    Small(0x100, 9, 32);
    FitValue(d, 16, e);
    assert Fit(d, 16) == d[..16];
    assert Nums(Parts(s), e) == [0x100] && Nums(Parts(a), e) == [Num(j, e)];
    NumBound(j, e);
    FitHits(a, [Num(j, e)], 8, Num(j, e));
    ChainPut(m, j, e, c, dw);
    LookupPut(m, Num(j, e), e, c, dw);
    Remainder(0x100, 256, 1, 0);
  }
}

/** Word-level memory reads: an if-then-else chain over the writes, and at the array variable a
    fresh word made congruent with the earlier reads. */
module WordReads {
  import opened Circuit
  import opened Decimal
  import opened Modular
  import opened BitVec
  import opened BitBlast
  import opened WordAddresses

  // ---- gates ----------------------------------------------------------------------------------

  /** bv_eq: the shorter word padded with zeros. */
  method BvEq(a: BV, b: BV) returns (r: Sig)
    ensures forall e :: Eval(r, e) <==> Num(a, e) == Num(b, e)
    ensures forall ns :: Within(a, ns) && Within(b, ns) ==> Support(r) <= ns
  {
    hide Num, Eval, Support, Fit;
    var w := Max(|a|, |b|);
    var x, y := Fit(a, w), Fit(b, w);
    var xs := seq(w, k requires 0 <= k < w => XNOR(x[k], y[k]));
    r := AND(xs);
    forall e ensures Every(xs, e) <==> Num(a, e) == Num(b, e) {
      NumFit(a, w, e);
      NumFit(b, w, e);
      NumInjective(x, y, e);
      assert forall k | 0 <= k < w :: Eval(xs[k], e) == (Eval(x[k], e) == Eval(y[k], e));
    }
    forall ns | Within(a, ns) && Within(b, ns) ensures Within(xs, ns) {
      FitWithin(a, w, ns);
      FitWithin(b, w, ns);
    }
  }

  /** bv_ite. */
  method BvIte(c: Sig, a: BV, b: BV) returns (r: BV)
    ensures forall e :: Num(r, e) == if Eval(c, e) then Num(a, e) else Num(b, e)
    ensures forall ns :: Support(c) <= ns && Within(a, ns) && Within(b, ns) ==> Within(r, ns)
  {
    hide Num, Eval, Support, Fit;
    var w := Max(|a|, |b|);
    var x, y := Fit(a, w), Fit(b, w);
    r := seq(w, k requires 0 <= k < w => ITE(c, x[k], y[k]));
    forall e ensures Num(r, e) == if Eval(c, e) then Num(a, e) else Num(b, e) {
      NumFit(a, w, e);
      NumFit(b, w, e);
      NumInjective(r, if Eval(c, e) then x else y, e);
    }
    forall ns | Support(c) <= ns && Within(a, ns) && Within(b, ns) ensures Within(r, ns) {
      FitWithin(a, w, ns);
      FitWithin(b, w, ns);
    }
  }

  // ---- fresh words --------------------------------------------------------------------------------

  function Mangle(x: Name): (r: Name)
    ensures |r| == |x|
  {
    seq(|x|, k requires 0 <= k < |x| => if x[k] == '@' then '_' else x[k])
  }

  /** The word standing for the k-th read of memory `x`. */
  function ReadName(x: Name, k: nat): Name {
    "__rd_" + Mangle(x) + ("_" + Digits(k))
  }

  /** Names that differ in '@' and '_' only share their words. */
  lemma MangledAlike(k: nat)
    ensures "m@0" != "m_0" && ReadName("m@0", k) == ReadName("m_0", k)
  {
    assert Mangle("m@0") == "m_0" && Mangle("m_0") == "m_0";
  }

  lemma ReadNameUnique(x: Name, j: nat, y: Name, k: nat)
    requires ReadName(x, j) == ReadName(y, k)
    ensures Mangle(x) == Mangle(y) && j == k
  {
    var s, a, b := ReadName(x, j), Digits(j), Digits(k);
    var u, v := "_" + a, "_" + b;
    var p, q := "__rd_" + Mangle(x), "__rd_" + Mangle(y);
    assert s == p + u && s == q + v;
    forall i | |p| < i < |s|
        ensures s[i] != '_' { assert s[i] == u[i - |p|]; assert u[i - |p|] == a[i - |p| - 1];
        assert a[i - |p| - 1] in a; }
    forall i | |q| < i < |s|
        ensures s[i] != '_' { assert s[i] == v[i - |q|]; assert v[i - |q|] == b[i - |q| - 1];
        assert b[i - |q| - 1] in b; }
    assert s[|p|] == '_' && s[|q|] == '_';
    assert s[..|p|] == p && s[..|q|] == q && s[|p|..] == u && s[|q|..] == v;
    assert u[1..] == a && v[1..] == b;
    assert p[5..] == Mangle(x) && q[5..] == Mangle(y);
    DigitsUnique(j, k);
  }

  /** Same leaves, same number. */
  lemma {:induction false} NumSame(b: BV, ns: set<Name>, e: Env, e': Env)
    requires Within(b, ns) && forall x | x in ns :: x in e <==> x in e'
    ensures Num(b, e) == Num(b, e')
  {
    hide Eval, Support;
    forall k | 0 <= k < |b| ensures Eval(b[k], e) == Eval(b[k], e') {
      EvalSupport(b[k], e, e');
    }
    NumBits(b, e, e');
  }

  // ---- the reads made -------------------------------------------------------------------------------

  type Seen = map<Name, seq<(BV, BV)>>

  function ReadsOf(seen: Seen, x: Name): seq<(BV, BV)> {
    if x in seen then seen[x] else []
  }

  /** The k-th read of `x` has the entry at its address. */
  ghost predicate Answers(seen: Seen, x: Name, k: nat, e: Env, c: Contents, dw: Widths)
    requires k < |ReadsOf(seen, x)|
  {
    Num(ReadsOf(seen, x)[k].1, e) == c(x)(Num(ReadsOf(seen, x)[k].0, e)) % Pow2(dw(x))
  }

  /** Every read has the entry at its address. */
  ghost predicate Consistent(seen: Seen, e: Env, c: Contents, dw: Widths) {
    forall x, k: nat | k < |ReadsOf(seen, x)| :: Answers(seen, x, k, e, c, dw)
  }

  ghost predicate Congruent(rs: seq<(BV, BV)>, j: nat, k: nat, e: Env)
    requires j < |rs| && k < |rs|
  {
    Num(rs[j].0, e) == Num(rs[k].0, e) ==> Num(rs[j].1, e) == Num(rs[k].1, e)
  }

  /** Reads of one memory at equal addresses are equal. */
  ghost predicate AllCongruent(seen: Seen, e: Env) {
    forall x, j: nat, k: nat | j < k < |ReadsOf(seen, x)| :: Congruent(ReadsOf(seen, x), j, k, e)
  }

  /** Contents that answer as the reads do. */
  ghost function ContentsFrom(seen: Seen, e: Env): Contents {
    (x: Name) => (n: int) => Entry(ReadsOf(seen, x), n, e)
  }

  ghost predicate At(rs: seq<(BV, BV)>, k: int, n: int, e: Env) {
    0 <= k < |rs| && Num(rs[k].0, e) == n
  }

  ghost function Entry(rs: seq<(BV, BV)>, n: int, e: Env): int {
    if exists k :: At(rs, k, n, e) then
      var k :| At(rs, k, n, e);
      Num(rs[k].1, e)
    else 0
  }

  /** Congruent reads are the reads of some memory. */
  lemma CongruentConsistent(seen: Seen, e: Env, dw: Widths)
    requires AllCongruent(seen, e) && forall x, k: nat | k < |ReadsOf(seen, x)| :: |ReadsOf(seen, x)[k].1| == dw(x)
    ensures Consistent(seen, e, ContentsFrom(seen, e), dw)
  {
    hide Num, Pow2;
    var c := ContentsFrom(seen, e);
    forall x, k: nat | k < |ReadsOf(seen, x)| ensures Answers(seen, x, k, e, c, dw) {
      var rs := ReadsOf(seen, x);
      var n := Num(rs[k].0, e);
      assert At(rs, k, n, e);
      var j :| At(rs, j, n, e) && Entry(rs, n, e) == Num(rs[j].1, e);
      if j < k {
        assert Congruent(rs, j, k, e);
      } else if k < j {
        assert Congruent(rs, k, j, e);
      }
      Remainder(Num(rs[k].1, e), Pow2(dw(x)), 0, Num(rs[k].1, e));
    }
  }

  lemma ConsistentCongruent(seen: Seen, e: Env, c: Contents, dw: Widths)
    requires Consistent(seen, e, c, dw)
    ensures AllCongruent(seen, e)
  {
    hide Num, Pow2;
    forall x, j: nat, k: nat | j < k < |ReadsOf(seen, x)| ensures Congruent(ReadsOf(seen, x), j, k, e) {
      assert Answers(seen, x, j, e, c, dw) && Answers(seen, x, k, e, c, dw);
    }
  }

  /** Reads made later only add. */
  ghost predicate Longer(a: Seen, b: Seen) {
    forall x :: ReadsOf(a, x) <= ReadsOf(b, x)
  }

  /** `r` is what the memory holds at address `j`, whatever memory the reads are of. */
  ghost predicate ReadsRight(seen: Seen, r: BV, m: Mem, j: BV, dw: Widths) {
    forall e, c | Consistent(seen, e, c, dw) :: Num(r, e) == Chain(m, j, e, c, dw)
  }

  /** Any values of the leaves `user` and any contents are those of some model of the reads:
      nothing is lost. */
  ghost predicate Conservative(seen: Seen, user: set<Name>, dw: Widths) {
    forall e, c :: Realised(seen, user, e, c, dw)
  }

  ghost predicate Realised(seen: Seen, user: set<Name>, e: Env, c: Contents, dw: Widths) {
    exists e': Env :: SameOn(user, e, e') && Consistent(seen, e', c, dw)
  }

  ghost predicate SameOn(ns: set<Name>, e: Env, e': Env) {
    forall x | x in ns :: x in e <==> x in e'
  }

  /** The words and addresses of the reads use known leaves. */
  ghost predicate ReadsKnown(seen: Seen, names: set<Name>, dw: Widths) {
    forall x, k: nat | k < |ReadsOf(seen, x)| ::
      Within(ReadsOf(seen, x)[k].0, names) && Within(ReadsOf(seen, x)[k].1, names) && |ReadsOf(seen, x)[k].1| == dw(x)
  }

  /** The words of reads to come are unused. */
  ghost predicate Unused(seen: Seen, names: set<Name>, mems: set<Name>) {
    forall x, k: nat, i: nat | x in mems && k >= |ReadsOf(seen, x)| :: BitName(ReadName(x, k), i) !in names
  }

  ghost predicate Distinguished(mems: set<Name>) {
    forall x, y | x in mems && y in mems && Mangle(x) == Mangle(y) :: x == y
  }

  /** The first reads of two memories. */
  function FirstReads(x: Name, i: BV, y: Name, j: BV, dw: Widths): Seen {
    map[x := [(i, BvVar(ReadName(x, 0), dw(x)))], y := [(j, BvVar(ReadName(y, 0), dw(y)))]]
  }

  /** Of memories whose names differ in '@' and '_' only, the reads are the same word: whatever the
      addresses, no model has the entries 0 of the one and 1 of the other. */
  lemma MangledWrong(i: BV, j: BV, user: set<Name>, dw: Widths)
    requires dw("m@0") == dw("m_0") > 0
    ensures !Conservative(FirstReads("m@0", i, "m_0", j, dw), user, dw)
  {
    hide Num, Pow2, ReadName;
    var seen := FirstReads("m@0", i, "m_0", j, dw);
    var c: Contents := x => k => if x == "m@0" then 0 else 1;
    MangledAlike(0);
    TwoValues(dw("m_0"));
    Remainder(0, Pow2(dw("m_0")), 0, 0);
    Remainder(1, Pow2(dw("m_0")), 0, 1);
    forall e' ensures !Consistent(seen, e', c, dw) {
      assert ReadsOf(seen, "m@0")[0].1 == ReadsOf(seen, "m_0")[0].1;
      if Answers(seen, "m@0", 0, e', c, dw) {
        assert !Answers(seen, "m_0", 0, e', c, dw);
      }
    }
    assert !Realised(seen, user, {}, c, dw);
  }

  function OneMoreRead(seen: Seen, x: Name, j: BV, r: BV): Seen {
    seen[x := ReadsOf(seen, x) + [(j, r)]]
  }

  lemma MoreReads(seen: Seen, x: Name, j: BV, r: BV)
    ensures Longer(seen, OneMoreRead(seen, x, j, r))
    ensures ReadsOf(OneMoreRead(seen, x, j, r), x) == ReadsOf(seen, x) + [(j, r)]
    ensures forall y | y != x :: ReadsOf(OneMoreRead(seen, x, j, r), y) == ReadsOf(seen, y)
  {
  }

  /** Leaves known after the read. */
  ghost function WithRead(names: set<Name>, x: Name, k: nat, w: nat): set<Name> {
    names + set i | 0 <= i < w :: BitName(ReadName(x, k), i)
  }

  lemma UnusedLater(seen: Seen, names: set<Name>, mems: set<Name>, x: Name, j: BV, r: BV, w: nat)
    requires Unused(seen, names, mems) && Distinguished(mems) && x in mems
    ensures Unused(OneMoreRead(seen, x, j, r), WithRead(names, x, |ReadsOf(seen, x)|, w), mems)
  {
    hide BitName, ReadName, Mangle;
    var n := |ReadsOf(seen, x)|;
    var seen' := OneMoreRead(seen, x, j, r);
    MoreReads(seen, x, j, r);
    forall y, k: nat, i: nat | y in mems && k >= |ReadsOf(seen', y)|
        ensures BitName(ReadName(y, k), i) !in WithRead(names, x, n, w) {
      assert BitName(ReadName(y, k), i) !in names;
      if i' :| 0 <= i' < w && BitName(ReadName(x, n), i') == BitName(ReadName(y, k), i) {
        BitNameUnique(ReadName(x, n), i', ReadName(y, k), i);
        ReadNameUnique(x, n, y, k);
      }
    }
  }

  lemma KnownLater(seen: Seen, names: set<Name>, dw: Widths, x: Name, j: BV)
    requires ReadsKnown(seen, names, dw) && Within(j, names)
    ensures ReadsKnown(OneMoreRead(seen, x, j, BvVar(ReadName(x, |ReadsOf(seen, x)|), dw(x))),
        WithRead(names, x, |ReadsOf(seen, x)|, dw(x)), dw)
    ensures Within(BvVar(ReadName(x, |ReadsOf(seen, x)|), dw(x)), WithRead(names, x, |ReadsOf(seen, x)|, dw(x)))
  {
    hide ReadName, BitName;
    var n := |ReadsOf(seen, x)|;
    var r := BvVar(ReadName(x, n), dw(x));
    var names' := WithRead(names, x, n, dw(x));
    MoreReads(seen, x, j, r);
    forall k | 0 <= k < |r| ensures Support(r[k]) <= names' {
      assert Support(r[k]) == {BitName(ReadName(x, n), k)};
    }
    var seen' := OneMoreRead(seen, x, j, r);
    forall y, k: nat | k < |ReadsOf(seen', y)|
      ensures Within(ReadsOf(seen', y)[k].0, names') && Within(ReadsOf(seen', y)[k].1, names')
          && |ReadsOf(seen', y)[k].1| == dw(y)
    {
      if k < |ReadsOf(seen, y)| {
        assert ReadsOf(seen', y)[k] == ReadsOf(seen, y)[k];
        WithinLater(ReadsOf(seen, y)[k].0, names, names');
        WithinLater(ReadsOf(seen, y)[k].1, names, names');
      } else {
        WithinLater(j, names, names');
      }
    }
  }

  lemma WithinLater(b: BV, ns: set<Name>, ns': set<Name>)
    requires Within(b, ns) && ns <= ns'
    ensures Within(b, ns')
  {
    hide Support;
  }

  /** A fresh word can take the entry's value. */
  lemma ConservativeLater(seen: Seen, names: set<Name>, user: set<Name>, mems: set<Name>, dw: Widths, x: Name, j: BV)
    requires Conservative(seen, user, dw) && ReadsKnown(seen, names, dw) && Unused(seen, names, mems) && x in mems
    requires user <= names && Within(j, names)
    ensures Conservative(OneMoreRead(seen, x, j, BvVar(ReadName(x, |ReadsOf(seen, x)|), dw(x))), user, dw)
  {
    hide Consistent, ReadName, BitName, Num, Pow2, ReadsKnown, Unused, Within;
    var word := ReadName(x, |ReadsOf(seen, x)|);
    var seen' := OneMoreRead(seen, x, j, BvVar(word, dw(x)));
    forall e, c ensures Realised(seen', user, e, c, dw) {
      assert Realised(seen, user, e, c, dw);
      var e1: Env :| SameOn(user, e, e1) && Consistent(seen, e1, c, dw);
      var e2 := PutWord(e1, word, c(x)(Num(j, e1)), dw(x));
      PutFresh(seen, names, mems, dw, x, j, e1, e2, c);
      assert SameOn(user, e, e2);
    }
  }

  lemma PutFresh(seen: Seen, names: set<Name>, mems: set<Name>, dw: Widths, x: Name, j: BV, e1: Env, e2: Env,
      c: Contents)
    requires Consistent(seen, e1, c, dw) && ReadsKnown(seen, names, dw) && Unused(seen, names, mems) && x in mems
        && Within(j, names)
    requires e2 == PutWord(e1, ReadName(x, |ReadsOf(seen, x)|), c(x)(Num(j, e1)), dw(x))
    ensures SameOn(names, e1, e2)
    ensures Consistent(OneMoreRead(seen, x, j, BvVar(ReadName(x, |ReadsOf(seen, x)|), dw(x))), e2, c, dw)
  {
    hide Num, Pow2, ReadName, BitName, Within;
    var n := |ReadsOf(seen, x)|;
    var word := ReadName(x, n);
    var r := BvVar(word, dw(x));
    var seen' := OneMoreRead(seen, x, j, r);
    MoreReads(seen, x, j, r);
    forall y | y in names ensures y in e1 <==> y in e2 {
      assert !IsBit(y, word, dw(x));
    }
    NumSame(j, names, e1, e2);
    PutWordReads(e1, word, c(x)(Num(j, e1)), dw(x));
    forall y, k: nat | k < |ReadsOf(seen', y)| ensures Answers(seen', y, k, e2, c, dw) {
      if k < |ReadsOf(seen, y)| {
        assert ReadsOf(seen', y)[k] == ReadsOf(seen, y)[k] && Answers(seen, y, k, e1, c, dw);
        NumSame(ReadsOf(seen, y)[k].0, names, e1, e2);
        NumSame(ReadsOf(seen, y)[k].1, names, e1, e2);
      }
    }
  }

  /** The read `n` is congruent with the first `i` reads. */
  ghost predicate CongruentUpTo(rs: seq<(BV, BV)>, n: nat, i: nat, e: Env)
    requires i <= n < |rs|
  {
    forall k: nat | k < i :: Congruent(rs, k, n, e)
  }

  lemma AllCongruentNext(seen: Seen, x: Name, j: BV, r: BV, e: Env)
    ensures |ReadsOf(OneMoreRead(seen, x, j, r), x)| == |ReadsOf(seen, x)| + 1
    ensures AllCongruent(OneMoreRead(seen, x, j, r), e) <==>
            AllCongruent(seen, e)
                && CongruentUpTo(ReadsOf(OneMoreRead(seen, x, j, r), x), |ReadsOf(seen, x)|, |ReadsOf(seen, x)|, e)
  {
    hide Num;
    var seen' := OneMoreRead(seen, x, j, r);
    MoreReads(seen, x, j, r);
    var n := |ReadsOf(seen, x)|;
    if AllCongruent(seen', e) {
      forall y, a: nat, b: nat | a < b < |ReadsOf(seen, y)| ensures Congruent(ReadsOf(seen, y), a, b, e) {
        assert Congruent(ReadsOf(seen', y), a, b, e);
      }
    }
    if AllCongruent(seen, e) && CongruentUpTo(ReadsOf(seen', x), n, n, e) {
      forall y, a: nat, b: nat | a < b < |ReadsOf(seen', y)| ensures Congruent(ReadsOf(seen', y), a, b, e) {
        if b < |ReadsOf(seen, y)| {
          assert Congruent(ReadsOf(seen, y), a, b, e);
        }
      }
    }
  }

  /** The write addresses and data use known leaves, the variable is known. */
  ghost predicate MemOk(m: Mem, names: set<Name>, mems: set<Name>) {
    match m
    case Root(x) => x in mems
    case Put(b, a, s) => MemOk(b, names, mems) && OperandOk(a, names) && OperandOk(s, names)
  }

  ghost predicate OperandOk(a: Operand, names: set<Name>) {
    forall k | 0 <= k < |Parts(a)| :: Within(Parts(a)[k], names)
  }

  lemma OperandOkLater(a: Operand, names: set<Name>, names': set<Name>)
    requires OperandOk(a, names) && names <= names'
    ensures OperandOk(a, names')
  {
    hide Within;
    forall k | 0 <= k < |Parts(a)| ensures Within(Parts(a)[k], names') { WithinLater(Parts(a)[k], names, names'); }
  }

  lemma {:induction false} MemOkLater(m: Mem, names: set<Name>, names': set<Name>, mems: set<Name>)
    requires MemOk(m, names, mems) && names <= names'
    ensures MemOk(m, names', mems)
  {
    hide Within;
    match m
    case Root(_) =>
    case Put(b, a, s) =>
      MemOkLater(b, names, names', mems);
      OperandOkLater(a, names, names');
      OperandOkLater(s, names, names');
  }

  lemma PutRight(seen: Seen, below: BV, i: BV, v: BV, hit: Sig, r: BV, m: Mem, j: BV, dw: Widths)
    requires m.Put? && ReadsRight(seen, below, m.below, j, dw)
    requires LoweredTo(m.at, |j|, i) && LoweredTo(m.stored, dw(RootOf(m)), v)
    requires forall e :: Eval(hit, e) <==> Num(i, e) == Num(Fit(j, |i|), e)
    requires forall e :: Num(r, e) == if Eval(hit, e) then Num(v, e) else Num(below, e)
    ensures ReadsRight(seen, r, m, j, dw)
  {
    hide Consistent, Num, Eval, Fit, Lowered, LoweredWidth;
    forall e, c | Consistent(seen, e, c, dw) ensures Num(r, e) == Chain(m, j, e, c, dw) {
      FitValue(j, |i|, e);
      assert LoweredIn(m.at, |j|, i, e) && LoweredIn(m.stored, dw(RootOf(m)), v, e);
    }
  }

  /** `i` is the operand lowered at width `n`. */
  ghost predicate LoweredTo(a: Operand, n: nat, i: BV) {
    |i| == LoweredWidth(a, n) && forall e :: LoweredIn(a, n, i, e)
  }

  ghost predicate LoweredIn(a: Operand, n: nat, i: BV, e: Env) {
    Num(i, e) == Lowered(a, n, Nums(Parts(a), e))
  }

  /** go, on the address or the datum of a write: at a width that the read gives. */
  method LowerAt(a: Operand, n: nat, ghost names: set<Name>) returns (i: BV)
    requires OperandOk(a, names)
    ensures LoweredTo(a, n, i) && Within(i, names)
  {
    hide Num, Fit, Within, Pow2;
    var w := LoweredWidth(a, n);
    match a
    case Word(b) =>
      assert Within(Parts(a)[0], names);
      FitWithin(b, w, names);
      i := Fit(b, w);
      forall e ensures LoweredIn(a, n, i, e) { FitValue(b, w, e); }
    case Own(b) =>
      assert Within(Parts(a)[0], names);
      i := b;
    case Number(v) =>
      i := BvConst(v, w);
      ConstsWithin(v, w, names);
      forall e ensures LoweredIn(a, n, i, e) { NumConst(v, w, e); }
    case Sum(x, y) =>
      assert Within(Parts(a)[0], names) && Within(Parts(a)[1], names);
      FitWithin(x, w, names);
      FitWithin(y, w, names);
      i := BvAdd(Fit(x, w), Fit(y, w), w);
      forall e ensures LoweredIn(a, n, i, e) {
        FittedSum(x, y, w, e);
      }
    case Offset(b, k) =>
      assert Within(Parts(a)[0], names);
      FitWithin(b, w, names);
      ConstsWithin(if k < 0 then -k else k, w, names);
      if k < 0 {
        i := BvSub(Fit(b, w), BvConst(-k, w), w);
      } else {
        i := BvAdd(Fit(b, w), BvConst(k, w), w);
      }
      forall e ensures LoweredIn(a, n, i, e) {
        FittedOffset(b, k, w, e);
      }
  }

  lemma FittedOffset(b: BV, k: int, w: nat, e: Env)
    ensures (Num(Fit(b, w), e) + Num(BvConst(k, w), e)) % Pow2(w) == (Num(b, e) + k) % Pow2(w)
    ensures (Num(Fit(b, w), e) - Num(BvConst(-k, w), e)) % Pow2(w) == (Num(b, e) + k) % Pow2(w)
  {
    hide Num, Fit, BvConst;
    var m := Pow2(w);
    NumFit(b, w, e);
    NumConst(k, w, e);
    NumConst(-k, w, e);
    CongMod(k, m);
    CongAdd(Num(Fit(b, w), e), Num(b, e), Num(BvConst(k, w), e), k, m);
    CongMod(-k, m);
    CongScale(Num(BvConst(-k, w), e), -k, -1, m);
    CongAdd(Num(Fit(b, w), e), Num(b, e), Num(BvConst(-k, w), e) * -1, -k * -1, m);
  }

  lemma FittedSum(x: BV, y: BV, w: nat, e: Env)
    ensures (Num(Fit(x, w), e) + Num(Fit(y, w), e)) % Pow2(w) == (Num(x, e) + Num(y, e)) % Pow2(w)
  {
    hide Num, Fit;
    NumFit(x, w, e);
    NumFit(y, w, e);
    CongAdd(Num(Fit(x, w), e), Num(x, e), Num(Fit(y, w), e), Num(y, e), Pow2(w));
  }

  lemma RootRight(seen: Seen, x: Name, j: BV, r: BV, dw: Widths)
    ensures ReadsRight(OneMoreRead(seen, x, j, r), r, Root(x), j, dw)
  {
    hide Num, Pow2;
    var seen' := OneMoreRead(seen, x, j, r);
    var n := |ReadsOf(seen, x)|;
    MoreReads(seen, x, j, r);
    forall e, c | Consistent(seen', e, c, dw) ensures Num(r, e) == Chain(Root(x), j, e, c, dw) {
      assert Answers(seen', x, n, e, c, dw);
    }
  }

  /** Some model of the asserted signals has these leaves and contents. */
  ghost predicate Modelled(seen: Seen, asserted: seq<Sig>, user: set<Name>, e: Env, c: Contents, dw: Widths) {
    exists e': Env :: SameOn(user, e, e') && Every(asserted, e') && Consistent(seen, e', c, dw)
  }

  class Reader {
    var seen: Seen
    var asserted: seq<Sig>
    const dw: Widths
    /** The leaves in use, those of the design, and the memory variables. */
    ghost var names: set<Name>
    ghost const user: set<Name>
    ghost const mems: set<Name>

    ghost predicate Valid()
      reads this
    {
      && ReadsKnown(seen, names, dw) && Unused(seen, names, mems) && Distinguished(mems)
      && Conservative(seen, user, dw) && user <= names
      && forall e :: Every(asserted, e) <==> AllCongruent(seen, e)
    }

    constructor (dw: Widths, ghost user: set<Name>, ghost mems: set<Name>)
      requires Distinguished(mems) && forall x, k: nat, i: nat | x in mems :: BitName(ReadName(x, k), i) !in user
      ensures Valid() && seen == map[] && asserted == [] && names == user && this.user == user && this.mems == mems
          && this.dw == dw
    {
      hide Mangle, ReadName, BitName;
      this.dw, this.user, this.mems, names := dw, user, mems, user;
      seen, asserted := map[], [];
      new;
      forall e, c ensures Realised(seen, user, e, c, dw) {
        assert SameOn(user, e, e) && Consistent(seen, e, c, dw);
      }
    }

    /** A base read: a fresh word, equal to the earlier reads at equal addresses. */
    method ReadRoot(x: Name, j: BV) returns (r: BV)
      requires Valid() && x in mems && Within(j, names)
      modifies this
      ensures Valid() && old(names) <= names && Longer(old(seen), seen)
      ensures ReadsRight(seen, r, Root(x), j, dw) && Within(r, names)
    {
      hide ReadsKnown, Unused, Distinguished, Conservative, ReadName, BitName, Within, Eval, Num, ReadsRight,
          AllCongruent, Congruent, Longer;
      var earlier := ReadsOf(seen, x);
      var n := |earlier|;
      r := BvVar(ReadName(x, n), dw(x));
      var seen' := OneMoreRead(seen, x, j, r);
      MoreReads(seen, x, j, r);
      ghost var rs := ReadsOf(seen', x);
      var k := 0;
      while k < n
        invariant k <= n && seen == old(seen) && names == old(names)
        invariant forall e :: Every(asserted, e) <==> AllCongruent(seen, e) && CongruentUpTo(rs, n, k, e)
      {
        var same := BvEq(j, earlier[k].0);
        var equal := BvEq(r, earlier[k].1);
        var c := OrTwo(NOT(same), equal);
        CongruentSig(rs, k, n, c);
        NextAsserted(asserted, c, seen, rs, n, k);
        asserted := asserted + [c];
        k := k + 1;
      }
      forall e ensures Every(asserted, e) <==> AllCongruent(seen', e) {
        AllCongruentNext(seen, x, j, r, e);
      }
      KnownLater(seen, names, dw, x, j);
      UnusedLater(seen, names, mems, x, j, r, dw(x));
      ConservativeLater(seen, names, user, mems, dw, x, j);
      RootRight(seen, x, j, r, dw);
      names := WithRead(names, x, n, dw(x));
      seen := seen';
    }

    /** select: the chain over the writes, newest first. */
    method Select(m: Mem, j: BV) returns (r: BV)
      requires Valid() && MemOk(m, names, mems) && Within(j, names)
      modifies this
      ensures Valid() && old(names) <= names && Longer(old(seen), seen)
      ensures ReadsRight(seen, r, m, j, dw) && Within(r, names)
      decreases m
    {
      hide Valid, Within, Num, Eval, Fit, ReadsRight, Longer, OperandOk, LoweredTo;
      match m
      case Root(x) => r := ReadRoot(x, j);
      case Put(b, a, s) =>
        var i := LowerAt(a, |j|, names);
        var v := LowerAt(s, dw(RootOf(m)), names);
        var hit := BvEq(i, Fit(j, |i|));
        FitWithin(j, |i|, names);
        ghost var before := names;
        var below := Select(b, j);
        r := BvIte(hit, v, below);
        PutRight(seen, below, i, v, hit, r, m, j, dw);
        WithinLater(i, before, names);
        WithinLater(v, before, names);
        WithinLater(Fit(j, |i|), before, names);
    }

    /** The asserted clauses say just that the reads are of one memory: whatever satisfies
        them has such contents, and no choice of the design's leaves and contents is lost. */
    lemma Exact()
      requires Valid()
      ensures forall e | Every(asserted, e) :: Consistent(seen, e, ContentsFrom(seen, e), dw)
      ensures forall e, c :: Modelled(seen, asserted, user, e, c, dw)
    {
      hide Consistent, AllCongruent, Every, Unused, Distinguished;
      forall e | Every(asserted, e) ensures Consistent(seen, e, ContentsFrom(seen, e), dw) {
        CongruentConsistent(seen, e, dw);
      }
      forall e, c ensures Modelled(seen, asserted, user, e, c, dw) {
        assert Realised(seen, user, e, c, dw);
        var e': Env :| SameOn(user, e, e') && Consistent(seen, e', c, dw);
        ConsistentCongruent(seen, e', c, dw);
      }
    }
  }

  lemma CongruentSig(rs: seq<(BV, BV)>, k: nat, n: nat, c: Sig)
    requires k < n < |rs|
    requires forall e :: Eval(c, e) <==> (Num(rs[n].0, e) != Num(rs[k].0, e) || Num(rs[n].1, e) == Num(rs[k].1, e))
    ensures forall e :: Eval(c, e) <==> Congruent(rs, k, n, e)
  {
    hide Num, Eval;
  }

  lemma NextAsserted(asserted: seq<Sig>, c: Sig, seen: Seen, rs: seq<(BV, BV)>, n: nat, k: nat)
    requires k < n < |rs| && forall e :: Eval(c, e) <==> Congruent(rs, k, n, e)
    requires forall e :: Every(asserted, e) <==> AllCongruent(seen, e) && CongruentUpTo(rs, n, k, e)
    ensures forall e :: Every(asserted + [c], e) <==> AllCongruent(seen, e) && CongruentUpTo(rs, n, k + 1, e)
  {
    hide Congruent, AllCongruent, Eval;
    forall e ensures Every(asserted + [c], e) <==> AllCongruent(seen, e) && CongruentUpTo(rs, n, k + 1, e) {
      EveryAppend(asserted, c);
      assert CongruentUpTo(rs, n, k + 1, e) <==> CongruentUpTo(rs, n, k, e) && Congruent(rs, k, n, e);
    }
  }
}

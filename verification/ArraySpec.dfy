/** Eliminating array reads: named reads, the axioms about them, and why the result has a
    model just when the original has one. */
module ArraySpec {
  import opened Circuit
  import opened Sat
  import opened Decimal
  import opened Modular
  import Encoding
  import opened Terms
  import opened Trail
  import opened Smt

  /** A read: an array and an index that is already free of reads. */
  type Key = (Arr, Term)

  /** The name given to each read. */
  type Table = map<Key, Name>

  function SelName(k: nat): Name {
    "__sel" + Digits(k)
  }

  lemma SelNameUnique(j: nat, k: nat)
    requires SelName(j) == SelName(k)
    ensures j == k
  {
    assert SelName(j)[5..] == Digits(j) && SelName(k)[5..] == Digits(k);
    DigitsUnique(j, k);
  }

  // ---- the words a term mentions, also inside its arrays ----------------------------------

  function Words(t: Term): set<Name>
    decreases t
  {
    match t
    case Var(x) => {x}
    case Const(_) => {}
    case Neg(a) => Words(a)
    case Add(ts) => set k, x | 0 <= k < |ts| && x in Words(ts[k]) :: x
    case Sub(a, b) => Words(a) + Words(b)
    case Mul(a, b) => Words(a) + Words(b)
    case Select(a, i) => ArrWords(a) + Words(i)
  }

  function ArrWords(a: Arr): set<Name>
    decreases a
  {
    match a
    case Base(_) => {}
    case Store(b, i, s) => ArrWords(b) + Words(i) + Words(s)
  }

  /** Values depend on the arrays and on the words mentioned. */
  lemma {:induction false} ValWords(t: Term, v: Valuation, u: Valuation, w: nat)
    requires v.arrays == u.arrays && forall x | x in Words(t) :: v.words(x) % Pow2(w) == u.words(x) % Pow2(w)
    ensures Val(t, v, w) == Val(t, u, w)
    decreases t
  {
    match t
    case Var(x) => assert x in Words(t);
    case Const(_) =>
    case Neg(a) => ValWords(a, v, u, w);
    case Add(ts) =>
      forall k | 0 <= k < |ts| ensures Val(ts[k], v, w) == Val(ts[k], u, w) {
        assert Words(ts[k]) <= Words(t);
        ValWords(ts[k], v, u, w);
      }
      SumWords(t, |ts|, v, u, w);
    case Sub(a, b) =>
      ValWords(a, v, u, w);
      ValWords(b, v, u, w);
    case Mul(a, b) =>
      ValWords(a, v, u, w);
      ValWords(b, v, u, w);
    case Select(a, i) =>
      ValWords(i, v, u, w);
      ReadWords(a, Val(i, v, w), v, u, w);
  }

  lemma {:induction false} SumWords(t: Term, k: nat, v: Valuation, u: Valuation, w: nat)
    requires t.Add? && k <= |t.terms| && forall j | 0 <= j < k :: Val(t.terms[j], v, w) == Val(t.terms[j], u, w)
    ensures SumVal(t, k, v, w) == SumVal(t, k, u, w)
    decreases k
  {
    if k > 0 {
      SumWords(t, k - 1, v, u, w);
    }
  }

  lemma {:induction false} ReadWords(a: Arr, j: int, v: Valuation, u: Valuation, w: nat)
    requires v.arrays == u.arrays && forall x | x in ArrWords(a) :: v.words(x) % Pow2(w) == u.words(x) % Pow2(w)
    ensures Read(a, j, v, w) == Read(a, j, u, w)
    decreases a
  {
    match a
    case Base(_) =>
    case Store(b, i, s) =>
      ReadWords(b, j, v, u, w);
      ValWords(i, v, u, w);
      ValWords(s, v, u, w);
  }

  /** Terms free of reads do not depend on the arrays. */
  lemma {:induction false} FreeVal(t: Term, v: Valuation, u: Valuation, w: nat)
    requires ArrayFree(t) && v.words == u.words
    ensures Val(t, v, w) == Val(t, u, w)
    decreases t
  {
    match t
    case Neg(a) => FreeVal(a, v, u, w);
    case Add(ts) =>
      forall k | 0 <= k < |ts| ensures Val(ts[k], v, w) == Val(ts[k], u, w) { FreeVal(ts[k], v, u, w); }
      SumWords(t, |ts|, v, u, w);
    case Sub(a, b) =>
      FreeVal(a, v, u, w);
      FreeVal(b, v, u, w);
    case Mul(a, b) =>
      FreeVal(a, v, u, w);
      FreeVal(b, v, u, w);
    case Var(_) =>
    case Const(_) =>
  }

  // ---- the reads a term makes ------------------------------------------------------------------

  /** The array and those its writes are over. */
  function SubArrays(a: Arr): set<Arr> {
    match a
    case Base(_) => {a}
    case Store(b, _, _) => {a} + SubArrays(b)
  }

  /** Every read in the term: an array, or one below it, at an index. */
  ghost function ReadsIn(t: Term): set<(Arr, Term)>
    decreases t
  {
    match t
    case Var(_) => {}
    case Const(_) => {}
    case Neg(a) => ReadsIn(a)
    case Add(ts) => set k, r | 0 <= k < |ts| && r in ReadsIn(ts[k]) :: r
    case Sub(a, b) => ReadsIn(a) + ReadsIn(b)
    case Mul(a, b) => ReadsIn(a) + ReadsIn(b)
    case Select(a, i) => ReadsAt(a, i) + ArrReads(a) + ReadsIn(i)
  }

  ghost function ReadsAt(a: Arr, i: Term): set<(Arr, Term)> {
    set b | b in SubArrays(a) :: (b, i)
  }

  ghost function ArrReads(a: Arr): set<(Arr, Term)>
    decreases a
  {
    match a
    case Base(_) => {}
    case Store(b, i, s) => ArrReads(b) + ReadsIn(i) + ReadsIn(s)
  }

  // ---- rewriting with a table ---------------------------------------------------------------

  /** The term with every read replaced by its name; None if some read has none yet. */
  function Rewrite(table: Table, t: Term): Option<Term>
    decreases t
  {
    match t
    case Var(_) => Some(t)
    case Const(_) => Some(t)
    case Neg(a) =>
      var x := Rewrite(table, a);
      if x.None? then None else Some(Neg(x.value))
    case Add(ts) =>
      if forall k | 0 <= k < |ts| :: Rewrite(table, ts[k]).Some? then
        Some(Add(seq(|ts|, k requires 0 <= k < |ts| && Rewrite(table, ts[k]).Some? => Rewrite(table, ts[k]).value)))
      else None
    case Sub(a, b) =>
      var x, y := Rewrite(table, a), Rewrite(table, b);
      if x.None? || y.None? then None else Some(Sub(x.value, y.value))
    case Mul(a, b) =>
      var x, y := Rewrite(table, a), Rewrite(table, b);
      if x.None? || y.None? then None else Some(Mul(x.value, y.value))
    case Select(a, i) =>
      var j := Rewrite(table, i);
      if j.Some? && (a, j.value) in table then Some(Var(table[(a, j.value)])) else None
  }

  /** Every named read is one of these, its index rewritten. */
  ghost predicate FromReads(table: Table, wanted: set<(Arr, Term)>) {
    forall key | key in table :: FromRead(table, wanted, key)
  }

  ghost predicate FromRead(table: Table, wanted: set<(Arr, Term)>, key: Key) {
    exists i :: (key.0, i) in wanted && Rewrite(table, i) == Option.Some(key.1)
  }

  ghost predicate Grown(table: Table, table': Table) {
    forall k | k in table :: k in table' && table'[k] == table[k]
  }

  lemma {:induction false} RewriteGrown(table: Table, table': Table, t: Term)
    requires Grown(table, table') && Rewrite(table, t).Some?
    ensures Rewrite(table', t) == Rewrite(table, t)
    decreases t
  {
    match t
    case Neg(a) => RewriteGrown(table, table', a);
    case Add(ts) =>
      forall k | 0 <= k < |ts| ensures Rewrite(table', ts[k]) == Rewrite(table, ts[k]) && Rewrite(table, ts[k]).Some? {
        RewriteGrown(table, table', ts[k]);
      }
      assert Rewrite(table', t).value.terms == Rewrite(table, t).value.terms;
    case Sub(a, b) =>
      RewriteGrown(table, table', a);
      RewriteGrown(table, table', b);
    case Mul(a, b) =>
      RewriteGrown(table, table', a);
      RewriteGrown(table, table', b);
    case Select(a, i) => RewriteGrown(table, table', i);
    case Var(_) =>
    case Const(_) =>
  }

  lemma {:induction false} RewriteFree(table: Table, t: Term)
    requires Rewrite(table, t).Some?
    ensures ArrayFree(Rewrite(table, t).value)
    decreases t
  {
    match t
    case Neg(a) => RewriteFree(table, a);
    case Add(ts) =>
      forall k | 0 <= k < |ts| ensures Rewrite(table, ts[k]).Some? && ArrayFree(Rewrite(table, ts[k]).value) {
        RewriteFree(table, ts[k]);
      }
    case Sub(a, b) =>
      RewriteFree(table, a);
      RewriteFree(table, b);
    case Mul(a, b) =>
      RewriteFree(table, a);
      RewriteFree(table, b);
    case Select(_, _) =>
    case Var(_) =>
    case Const(_) =>
  }

  /** The name of the read has the read's value. */
  ghost predicate Named(table: Table, key: Key, v: Valuation, w: nat)
    requires key in table
  {
    Val(Var(table[key]), v, w) == Read(key.0, Val(key.1, v, w), v, w)
  }

  ghost predicate AllNamed(table: Table, v: Valuation, w: nat) {
    forall key | key in table :: Named(table, key, v, w)
  }

  /** If every name has its read's value, rewriting keeps every term's value. */
  lemma {:induction false} RewriteVal(table: Table, t: Term, v: Valuation, w: nat)
    requires AllNamed(table, v, w) && Rewrite(table, t).Some?
    ensures Val(Rewrite(table, t).value, v, w) == Val(t, v, w)
    decreases t
  {
    match t
    case Neg(a) => RewriteVal(table, a, v, w);
    case Add(ts) =>
      forall k | 0 <= k < |ts|
          ensures Rewrite(table, ts[k]).Some? && Val(Rewrite(table, ts[k]).value, v, w) == Val(ts[k], v, w) {
        RewriteVal(table, ts[k], v, w);
      }
      RewriteSum(table, t, |ts|, v, w);
    case Sub(a, b) =>
      RewriteVal(table, a, v, w);
      RewriteVal(table, b, v, w);
    case Mul(a, b) =>
      RewriteVal(table, a, v, w);
      RewriteVal(table, b, v, w);
    case Select(a, i) =>
      RewriteVal(table, i, v, w);
      assert Named(table, (a, Rewrite(table, i).value), v, w);
    case Var(_) =>
    case Const(_) =>
  }

  lemma {:induction false} RewriteSum(table: Table, t: Term, k: nat, v: Valuation, w: nat)
    requires t.Add? && Rewrite(table, t).Some? && k <= |t.terms|
    requires forall j | 0 <= j < k ::
        Rewrite(table, t.terms[j]).Some? && Val(Rewrite(table, t.terms[j]).value, v, w) == Val(t.terms[j], v, w)
    ensures SumVal(Rewrite(table, t).value, k, v, w) == SumVal(t, k, v, w)
    decreases k
  {
    if k > 0 {
      RewriteSum(table, t, k - 1, v, w);
    }
  }

  // ---- the axioms ------------------------------------------------------------------------------

  /** Atom `p` is (= a b), either way round. */
  predicate AtomIs(atoms: seq<Eq>, p: int, a: Term, b: Term) {
    1 <= p <= |atoms| && (atoms[p - 1] == Eq(a, b) || atoms[p - 1] == Eq(b, a))
  }

  lemma AtomTruth(atoms: seq<Eq>, p: int, a: Term, b: Term, v: Valuation, w: nat)
    requires AtomIs(atoms, p, a, b)
    ensures p in Truth(atoms, v, w) <==> Val(a, v, w) == Val(b, v, w)
  {
    assert IsTrue(atoms, p, v, w) <==> Holds(atoms[p - 1], v, w);
  }

  /** i = j: the read has the stored value. */
  ghost predicate Overwritten(table: Table, atoms: seq<Eq>, key: Key, p: int, q: int) {
    && key in table && key.0.Store? && Rewrite(table, key.0.at).Some? && Rewrite(table, key.0.stored).Some?
    && AtomIs(atoms, p, Rewrite(table, key.0.at).value, key.1)
    && AtomIs(atoms, q, Var(table[key]), Rewrite(table, key.0.stored).value)
  }

  /** i != j: the read is the read below. */
  ghost predicate Untouched(table: Table, atoms: seq<Eq>, key: Key, p: int, q: int) {
    && key in table && key.0.Store? && Rewrite(table, key.0.at).Some? && (key.0.below, key.1) in table
    && AtomIs(atoms, p, Rewrite(table, key.0.at).value, key.1)
    && AtomIs(atoms, q, Var(table[key]), Var(table[(key.0.below, key.1)]))
  }

  /** Equal indices into the same array variable: equal reads. */
  ghost predicate Congruent(table: Table, atoms: seq<Eq>, key: Key, other: Key, p: int, q: int) {
    && key in table && other in table && key.0.Base? && other.0 == key.0
    && AtomIs(atoms, p, key.1, other.1) && AtomIs(atoms, q, Var(table[key]), Var(table[other]))
  }

  ghost predicate IsAxiom(table: Table, atoms: seq<Eq>, c: seq<int>) {
    || (exists key, p, q :: Overwritten(table, atoms, key, p, q) && c == [-p, q])
    || (exists key, p, q :: Untouched(table, atoms, key, p, q) && c == [p, q])
    || exists key, other, p, q :: Congruent(table, atoms, key, other, p, q) && c == [-p, q]
  }

  ghost predicate OnlyAxioms(table: Table, atoms: seq<Eq>, extra: seq<seq<int>>) {
    forall c | c in extra :: IsAxiom(table, atoms, c)
  }

  ghost predicate StoreAxioms(table: Table, atoms: seq<Eq>, extra: seq<seq<int>>, key: Key) {
    exists p, q, r ::
        Overwritten(table, atoms, key, p, q) && Untouched(table, atoms, key, p, r) && [-p, q] in extra
        && [p, r] in extra
  }

  ghost predicate BaseAxiom(table: Table, atoms: seq<Eq>, extra: seq<seq<int>>, key: Key, other: Key) {
    exists p, q :: Congruent(table, atoms, key, other, p, q) && [-p, q] in extra
  }

  /** Every read has its axioms, but for those still being processed. */
  ghost predicate Closed(table: Table, atoms: seq<Eq>, extra: seq<seq<int>>, pending: set<Key>) {
    && (forall key | key in table && key.0.Store? && key !in pending :: StoreAxioms(table, atoms, extra, key))
    && forall key, other | key in table && other in table && key.0.Base? && other.0 == key.0 && key != other
           && key !in pending && other !in pending ::
         BaseAxiom(table, atoms, extra, key, other) || BaseAxiom(table, atoms, extra, other, key)
  }

  lemma PairHolds(m: Model, p: int, q: int)
    requires p > 0 && q > 0
    ensures HoldsClause(m, [-p, q]) <==> (p in m ==> q in m)
    ensures HoldsClause(m, [p, q]) <==> (p !in m ==> q in m)
  {
    Encoding.Two(m, -p, q);
    Encoding.Two(m, p, q);
  }

  // ---- a model of the original gives one of the result ---------------------------------------------

  lemma OverwrittenHolds(table: Table, atoms: seq<Eq>, key: Key, p: int, q: int, v: Valuation, w: nat)
    requires AllNamed(table, v, w) && Overwritten(table, atoms, key, p, q)
    ensures HoldsClause(Truth(atoms, v, w), [-p, q])
  {
    hide Rewrite, Truth, HoldsClause;
    PairHolds(Truth(atoms, v, w), p, q);
    RewriteVal(table, key.0.at, v, w);
    RewriteVal(table, key.0.stored, v, w);
    AtomTruth(atoms, p, Rewrite(table, key.0.at).value, key.1, v, w);
    AtomTruth(atoms, q, Var(table[key]), Rewrite(table, key.0.stored).value, v, w);
    assert Named(table, key, v, w);
  }

  lemma UntouchedHolds(table: Table, atoms: seq<Eq>, key: Key, p: int, q: int, v: Valuation, w: nat)
    requires AllNamed(table, v, w) && Untouched(table, atoms, key, p, q)
    ensures HoldsClause(Truth(atoms, v, w), [p, q])
  {
    hide Rewrite, Truth, HoldsClause;
    PairHolds(Truth(atoms, v, w), p, q);
    RewriteVal(table, key.0.at, v, w);
    AtomTruth(atoms, p, Rewrite(table, key.0.at).value, key.1, v, w);
    AtomTruth(atoms, q, Var(table[key]), Var(table[(key.0.below, key.1)]), v, w);
    assert Named(table, key, v, w) && Named(table, (key.0.below, key.1), v, w);
  }

  lemma CongruentHolds(table: Table, atoms: seq<Eq>, key: Key, other: Key, p: int, q: int, v: Valuation, w: nat)
    requires AllNamed(table, v, w) && Congruent(table, atoms, key, other, p, q)
    ensures HoldsClause(Truth(atoms, v, w), [-p, q])
  {
    hide Rewrite, Truth, HoldsClause;
    PairHolds(Truth(atoms, v, w), p, q);
    AtomTruth(atoms, p, key.1, other.1, v, w);
    AtomTruth(atoms, q, Var(table[key]), Var(table[other]), v, w);
    assert Named(table, key, v, w) && Named(table, other, v, w);
  }

  /** With every read's value under its name the axioms hold. */
  lemma AxiomHolds(table: Table, atoms: seq<Eq>, c: seq<int>, v: Valuation, w: nat)
    requires AllNamed(table, v, w) && IsAxiom(table, atoms, c)
    ensures HoldsClause(Truth(atoms, v, w), c)
  {
    hide Overwritten, Untouched, Congruent, Truth, HoldsClause, AllNamed;
    if exists key, p, q :: Overwritten(table, atoms, key, p, q) && c == [-p, q] {
      var key, p, q :| Overwritten(table, atoms, key, p, q) && c == [-p, q];
      OverwrittenHolds(table, atoms, key, p, q, v, w);
    } else if exists key, p, q :: Untouched(table, atoms, key, p, q) && c == [p, q] {
      var key, p, q :| Untouched(table, atoms, key, p, q) && c == [p, q];
      UntouchedHolds(table, atoms, key, p, q, v, w);
    } else {
      var key, other, p, q :| Congruent(table, atoms, key, other, p, q) && c == [-p, q];
      CongruentHolds(table, atoms, key, other, p, q, v, w);
    }
  }

  /** The reads in the order they were named: each mentions the user's words and earlier
      names only. */
  ghost predicate Ordered(table: Table, keys: seq<Key>, user: set<Name>) {
    && (forall k | 0 <= k < |keys| :: keys[k] in table && table[keys[k]] == SelName(k + 1))
    && (forall key | key in table :: key in keys)
    && (forall k | 0 <= k < |keys| :: ArrWords(keys[k].0) <= user && Words(keys[k].1) <= Known(user, k))
  }

  /** The problem uses none of the first `n` generated names. */
  ghost predicate NamesUnused(user: set<Name>, n: nat) {
    forall k: nat | 1 <= k <= n :: SelName(k) !in user
  }

  /** The user's words and the first `k` names. */
  ghost function Known(user: set<Name>, k: nat): set<Name> {
    user + set m | 1 <= m <= k :: SelName(m)
  }

  /** The words extended with the values of the first `n` reads. */
  ghost function Extend(v: Valuation, keys: seq<Key>, n: nat, w: nat): Valuation
    requires n <= |keys|
  {
    if n == 0 then v
    else
      var u := Extend(v, keys, n - 1, w);
      var val := Read(keys[n - 1].0, Val(keys[n - 1].1, u, w), u, w);
      Valuation((x: Name) => if x == SelName(n) then val else u.words(x), u.arrays)
  }

  lemma {:induction false} ExtendKeeps(v: Valuation, keys: seq<Key>, k: nat, n: nat, w: nat, user: set<Name>, x: Name)
    requires k <= n <= |keys| && x in Known(user, k) && NamesUnused(user, n)
    ensures Extend(v, keys, n, w).words(x) == Extend(v, keys, k, w).words(x)
    ensures Extend(v, keys, n, w).arrays == v.arrays
    decreases n
  {
    if n > k {
      ExtendKeeps(v, keys, k, n - 1, w, user, x);
      if x == SelName(n) {
        var m :| 1 <= m <= k && SelName(m) == x;
        SelNameUnique(m, n);
      }
    } else {
      ExtendArrays(v, keys, n, w);
    }
  }

  lemma {:induction false} ExtendArrays(v: Valuation, keys: seq<Key>, n: nat, w: nat)
    requires n <= |keys|
    ensures Extend(v, keys, n, w).arrays == v.arrays
    decreases n
  {
    if n > 0 {
      ExtendArrays(v, keys, n - 1, w);
    }
  }

  /** In the extended valuation every name has its read's value. */
  lemma ExtendNamed(table: Table, keys: seq<Key>, user: set<Name>, v: Valuation, w: nat)
    requires Ordered(table, keys, user) && NamesUnused(user, |keys|)
    ensures AllNamed(table, Extend(v, keys, |keys|, w), w)
  {
    var n := |keys|;
    forall key | key in table ensures Named(table, key, Extend(v, keys, n, w), w) {
      var k :| 0 <= k < n && keys[k] == key;
      OneNamed(table, keys, user, v, w, k);
    }
  }

  /** Later names do not change what a read depends on. */
  lemma ReadKept(table: Table, keys: seq<Key>, user: set<Name>, v: Valuation, w: nat, k: nat)
    requires Ordered(table, keys, user) && k < |keys| && NamesUnused(user, |keys|)
    ensures ReadIn(keys[k], Extend(v, keys, |keys|, w), w) == ReadIn(keys[k], Extend(v, keys, k, w), w)
  {
    hide Val, Read, ArrWords, Words, SelName, Pow2, Extend;
    var u, z := Extend(v, keys, k, w), Extend(v, keys, |keys|, w);
    forall x | x in Known(user, k) ensures z.words(x) == u.words(x) {
      ExtendKeeps(v, keys, k, |keys|, w, user, x);
    }
    ExtendArrays(v, keys, k, w);
    ExtendArrays(v, keys, |keys|, w);
    ValWords(keys[k].1, z, u, w);
    ReadWords(keys[k].0, Val(keys[k].1, u, w), z, u, w);
  }

  ghost function ReadIn(key: Key, v: Valuation, w: nat): int {
    Read(key.0, Val(key.1, v, w), v, w)
  }

  lemma NameGiven(keys: seq<Key>, user: set<Name>, v: Valuation, w: nat, k: nat)
    requires k < |keys| && NamesUnused(user, |keys|)
    ensures Extend(v, keys, |keys|, w).words(SelName(k + 1)) == ReadIn(keys[k], Extend(v, keys, k, w), w)
  {
    hide Val, Read, SelName, Pow2;
    assert SelName(k + 1) in Known(user, k + 1);
    ExtendKeeps(v, keys, k + 1, |keys|, w, user, SelName(k + 1));
  }

  lemma OneNamed(table: Table, keys: seq<Key>, user: set<Name>, v: Valuation, w: nat, k: nat)
    requires Ordered(table, keys, user) && k < |keys| && NamesUnused(user, |keys|)
    ensures Named(table, keys[k], Extend(v, keys, |keys|, w), w)
  {
    hide Val, Read, ArrWords, Words, SelName, Pow2, Extend;
    var u, z := Extend(v, keys, k, w), Extend(v, keys, |keys|, w);
    ReadKept(table, keys, user, v, w, k);
    NameGiven(keys, user, v, w, k);
    ReadBound(keys[k].0, Val(keys[k].1, u, w), u, w);
    NameValue(SelName(k + 1), z, ReadIn(keys[k], u, w), w);
  }

  lemma ReadBound(a: Arr, j: int, v: Valuation, w: nat)
    ensures 0 <= Read(a, j, v, w) < Pow2(w)
  {
  }

  lemma NameValue(x: Name, v: Valuation, val: int, w: nat)
    requires v.words(x) == val && 0 <= val < Pow2(w)
    ensures Val(Var(x), v, w) == val
  {
    Remainder(val, Pow2(w), 0, val);
  }

  // ---- a model of the result gives one of the original --------------------------------------------

  /** Some read of array variable `x` at index `j`. */
  ghost predicate ReadAt(table: Table, x: Name, j: int, key: Key, v: Valuation, w: nat) {
    key in table && key.0 == Base(x) && Val(key.1, v, w) == j
  }

  /** The arrays that answer every read with the value of its name. */
  ghost function ArraysFrom(table: Table, v: Valuation, w: nat): Name -> int -> int {
    (x: Name) => (j: int) => Entry(table, x, j, v, w)
  }

  ghost function Entry(table: Table, x: Name, j: int, v: Valuation, w: nat): int {
    if exists key :: ReadAt(table, x, j, key, v, w) then
      var key :| ReadAt(table, x, j, key, v, w);
      Val(Var(table[key]), v, w)
    else 0
  }

  ghost function WithArrays(table: Table, v: Valuation, w: nat): Valuation {
    Valuation(v.words, ArraysFrom(table, v, w))
  }

  /** The axioms are among clauses that hold. */
  ghost predicate AxiomsHold(table: Table, atoms: seq<Eq>, extra: seq<seq<int>>, v: Valuation, w: nat) {
    && Closed(table, atoms, extra, {}) && (forall c | c in extra :: HoldsClause(Truth(atoms, v, w), c))
    && (forall key | key in table :: ArrayFree(key.1))
  }

  lemma BaseNamed(table: Table, atoms: seq<Eq>, extra: seq<seq<int>>, key: Key, v: Valuation, w: nat)
    requires AxiomsHold(table, atoms, extra, v, w) && key in table && key.0.Base?
    ensures Named(table, key, WithArrays(table, v, w), w)
  {
    var u, x := WithArrays(table, v, w), key.0.id;
    FreeVal(key.1, u, v, w);
    var j := Val(key.1, v, w);
    assert ReadAt(table, x, j, key, v, w);
    var other :| ReadAt(table, x, j, other, v, w) && Entry(table, x, j, v, w) == Val(Var(table[other]), v, w);
    if other != key {
      SameRead(table, atoms, extra, key, other, v, w);
    }
    NameBound(table[key], v, w);
  }

  lemma NameBound(x: Name, v: Valuation, w: nat)
    ensures Val(Var(x), v, w) % Pow2(w) == Val(Var(x), v, w)
  {
    Remainder(Val(Var(x), v, w), Pow2(w), 0, Val(Var(x), v, w));
  }

  lemma SameRead(table: Table, atoms: seq<Eq>, extra: seq<seq<int>>, key: Key, other: Key, v: Valuation, w: nat)
    requires AxiomsHold(table, atoms, extra, v, w) && key in table && other in table && key.0.Base? && other.0 == key.0
    requires key != other && Val(key.1, v, w) == Val(other.1, v, w)
    ensures Val(Var(table[key]), v, w) == Val(Var(table[other]), v, w)
  {
    hide Val, Truth, HoldsClause, Rewrite;
    if BaseAxiom(table, atoms, extra, key, other) {
      CongruenceUsed(table, atoms, extra, key, other, v, w);
    } else {
      CongruenceUsed(table, atoms, extra, other, key, v, w);
    }
  }

  lemma CongruenceUsed(table: Table, atoms: seq<Eq>, extra: seq<seq<int>>, key: Key, other: Key, v: Valuation, w: nat)
    requires BaseAxiom(table, atoms, extra, key, other) && forall c | c in extra :: HoldsClause(Truth(atoms, v, w), c)
    requires Val(key.1, v, w) == Val(other.1, v, w)
    ensures key in table && other in table && Val(Var(table[key]), v, w) == Val(Var(table[other]), v, w)
  {
    hide Val, Truth, HoldsClause, Rewrite;
    var p, q :| Congruent(table, atoms, key, other, p, q) && [-p, q] in extra;
    PairHolds(Truth(atoms, v, w), p, q);
    AtomTruth(atoms, p, key.1, other.1, v, w);
    AtomTruth(atoms, q, Var(table[key]), Var(table[other]), v, w);
  }

  /** Under the arrays read off the names, every name has its read's value: by the
      structure of the array read. */
  lemma {:induction false} ReadNamed(table: Table, atoms: seq<Eq>, extra: seq<seq<int>>, a: Arr, jj: Term,
      v: Valuation, w: nat)
    requires AxiomsHold(table, atoms, extra, v, w) && (a, jj) in table
    ensures Named(table, (a, jj), WithArrays(table, v, w), w)
    decreases a
  {
    hide Truth, HoldsClause, Rewrite, AtomIs;
    match a
    case Base(_) => BaseNamed(table, atoms, extra, (a, jj), v, w);
    case Store(b, i, s) =>
      var key := (a, jj);
      assert StoreAxioms(table, atoms, extra, key);
      var p, q, r :| Overwritten(table, atoms, key, p, q) && Untouched(table, atoms, key, p, r) && [-p, q] in extra
          && [p, r] in extra;
      ValNamed(table, atoms, extra, i, v, w);
      ValNamed(table, atoms, extra, s, v, w);
      ReadNamed(table, atoms, extra, b, jj, v, w);
      StoreNamed(table, atoms, key, p, q, r, v, w);
  }

  lemma {:induction false} ValNamed(table: Table, atoms: seq<Eq>, extra: seq<seq<int>>, t: Term, v: Valuation, w: nat)
    requires AxiomsHold(table, atoms, extra, v, w) && Rewrite(table, t).Some?
    ensures Val(Rewrite(table, t).value, WithArrays(table, v, w), w) == Val(t, WithArrays(table, v, w), w)
    decreases t
  {
    hide AxiomsHold;
    var u := WithArrays(table, v, w);
    match t
    case Neg(a) => ValNamed(table, atoms, extra, a, v, w);
    case Add(ts) =>
      forall k | 0 <= k < |ts|
          ensures Rewrite(table, ts[k]).Some? && Val(Rewrite(table, ts[k]).value, u, w) == Val(ts[k], u, w) {
        ValNamed(table, atoms, extra, ts[k], v, w);
      }
      RewriteSum(table, t, |ts|, u, w);
    case Sub(a, b) =>
      ValNamed(table, atoms, extra, a, v, w);
      ValNamed(table, atoms, extra, b, v, w);
    case Mul(a, b) =>
      ValNamed(table, atoms, extra, a, v, w);
      ValNamed(table, atoms, extra, b, v, w);
    case Select(a, i) =>
      ValNamed(table, atoms, extra, i, v, w);
      ReadNamed(table, atoms, extra, a, Rewrite(table, i).value, v, w);
    case Var(_) =>
    case Const(_) =>
  }

  lemma StoreNamed(table: Table, atoms: seq<Eq>, key: Key, p: int, q: int, r: int, v: Valuation, w: nat)
    requires Overwritten(table, atoms, key, p, q) && Untouched(table, atoms, key, p, r)
    requires HoldsClause(Truth(atoms, v, w), [-p, q]) && HoldsClause(Truth(atoms, v, w), [p, r])
    requires ArrayFree(key.1) && Named(table, (key.0.below, key.1), WithArrays(table, v, w), w)
    requires Val(Rewrite(table, key.0.at).value, WithArrays(table, v, w), w) ==
        Val(key.0.at, WithArrays(table, v, w), w)
    requires Val(Rewrite(table, key.0.stored).value, WithArrays(table, v, w), w) ==
        Val(key.0.stored, WithArrays(table, v, w), w)
    ensures Named(table, key, WithArrays(table, v, w), w)
  {
    hide Rewrite, Truth, HoldsClause;
    var u, m := WithArrays(table, v, w), Truth(atoms, v, w);
    RewriteFree(table, key.0.at);
    RewriteFree(table, key.0.stored);
    FreeVal(key.1, u, v, w);
    FreeVal(Rewrite(table, key.0.at).value, u, v, w);
    FreeVal(Rewrite(table, key.0.stored).value, u, v, w);
    PairHolds(m, p, q);
    PairHolds(m, p, r);
    AtomTruth(atoms, p, Rewrite(table, key.0.at).value, key.1, v, w);
    AtomTruth(atoms, q, Var(table[key]), Rewrite(table, key.0.stored).value, v, w);
    AtomTruth(atoms, r, Var(table[key]), Var(table[(key.0.below, key.1)]), v, w);
  }

  lemma AllReadsNamed(table: Table, atoms: seq<Eq>, extra: seq<seq<int>>, v: Valuation, w: nat)
    requires AxiomsHold(table, atoms, extra, v, w)
    ensures AllNamed(table, WithArrays(table, v, w), w)
  {
    hide AxiomsHold, Named;
    forall key | key in table ensures Named(table, key, WithArrays(table, v, w), w) {
      ReadNamed(table, atoms, extra, key.0, key.1, v, w);
    }
  }
}

/** DPLL(T) with arrays: the reduction has a model just when the problem has one. */
module ArraySmt {
  import opened Sets
  import opened Sat
  import opened Circuit
  import opened Trail
  import opened Terms
  import opened BitBlast
  import opened Smt
  import opened ArraySpec
  import opened Arrays
  import opened Elimination

  // ---- the reduction ----------------------------------------------------------------------

  /** The words the problem mentions. */
  ghost function UserWords(atoms: seq<Eq>): set<Name> {
    set k, x | 0 <= k < |atoms| && x in EqWords(atoms[k]) :: x
  }

  ghost function EqWords(a: Eq): set<Name> {
    Words(a.t1) + Words(a.t2)
  }

  /** The reads the problem makes. */
  ghost function ProblemReads(atoms: seq<Eq>): set<(Arr, Term)> {
    set k, r | 0 <= k < |atoms| && r in EqReads(atoms[k]) :: r
  }

  ghost function EqReads(a: Eq): set<(Arr, Term)> {
    ReadsIn(a.t1) + ReadsIn(a.t2)
  }

  /** No term of the problem uses a name that may be generated for its reads. */
  ghost predicate NamesFree(atoms: seq<Eq>) {
    NamesUnused(UserWords(atoms), |ProblemReads(atoms)|)
  }

  predicate ProperEq(a: Eq) {
    Proper(a.t1) && Proper(a.t2)
  }

  /** `p` is the new index of the rewritten atom. */
  ghost predicate Mapped(now: Tables, a: Eq, p: int) {
    && Rewrite(now.table, a.t1).Some? && Rewrite(now.table, a.t2).Some?
    && AtomIs(now.atoms, p, Rewrite(now.table, a.t1).value, Rewrite(now.table, a.t2).value)
  }

  ghost predicate AllMapped(now: Tables, atoms: seq<Eq>, remap: seq<int>) {
    |remap| <= |atoms| && forall k | 0 <= k < |remap| :: Mapped(now, atoms[k], remap[k])
  }

  /** The tables when every atom is rewritten. */
  ghost predicate Complete(now: Tables, atoms: seq<Eq>, remap: seq<int>) {
    && Sound(now.table, now.keys, now.atoms, now.extra, {}, UserWords(atoms))
    && AllMapped(now, atoms, remap) && |remap| == |atoms| && FromReads(now.table, ProblemReads(atoms))
  }

  // ---- how many names there are ---------------------------------------------------------------

  /** No more names than reads. */
  lemma NamesCounted(now: Tables, atoms: seq<Eq>, remap: seq<int>)
    requires Complete(now, atoms, remap)
    ensures |now.keys| <= |ProblemReads(atoms)|
  {
    hide AllMapped, Closed, OnlyAxioms, Lowerable, Words, ArrWords, Known, SelName, Rewrite, ProblemReads;
    var p := Readers(now, atoms, remap, |now.keys|);
    Fewer(p, ProblemReads(atoms));
  }

  /** A read for each of the first `n` names. */
  lemma {:induction false} Readers(now: Tables, atoms: seq<Eq>, remap: seq<int>, n: nat) returns (p: set<(Arr, Term)>)
    requires Complete(now, atoms, remap) && n <= |now.keys|
    ensures p <= ProblemReads(atoms) && |p| == n
    ensures forall r | r in p :: exists k :: 0 <= k < n && IsReadOf(now, r, k)
    decreases n
  {
    hide AllMapped, Closed, OnlyAxioms, Lowerable, Words, ArrWords, Known, SelName, Rewrite, ProblemReads;
    if n == 0 {
      p := {};
    } else {
      var q := Readers(now, atoms, remap, n - 1);
      var key := now.keys[n - 1];
      assert FromRead(now.table, ProblemReads(atoms), key);
      var i :| (key.0, i) in ProblemReads(atoms) && Rewrite(now.table, i) == Option.Some(key.1);
      var r := (key.0, i);
      assert IsReadOf(now, r, n - 1);
      if r in q {
        var k :| 0 <= k < n - 1 && IsReadOf(now, r, k);
        NotTwice(now, UserWords(atoms), k, n - 1);
      }
      p := q + {r};
    }
  }

  ghost predicate IsReadOf(now: Tables, r: (Arr, Term), k: int) {
    0 <= k < |now.keys| && now.keys[k].0 == r.0 && Rewrite(now.table, r.1) == Option.Some(now.keys[k].1)
  }

  lemma NotTwice(now: Tables, user: set<Name>, j: nat, k: nat)
    requires Ordered(now.table, now.keys, user) && j < k < |now.keys|
    ensures now.keys[j] != now.keys[k]
  {
    hide SelName, Words, ArrWords, Known;
    if SelName(j + 1) == SelName(k + 1) {
      SelNameUnique(j + 1, k + 1);
    }
  }

  function RemapLit(remap: seq<int>, l: int): int
    requires LitOk(|remap|, l)
  {
    if l > 0 then remap[l - 1] else -remap[-l - 1]
  }

  function RemapClause(remap: seq<int>, c: seq<int>): (d: seq<int>)
    requires ClauseOk(|remap|, c)
    ensures |d| == |c| && forall k | 0 <= k < |c| :: LitOk(|remap|, c[k]) && d[k] == RemapLit(remap, c[k])
  {
    assert forall k | 0 <= k < |c| :: LitOk(|remap|, c[k]);
    seq(|c|, k requires 0 <= k < |c| && LitOk(|remap|, c[k]) => RemapLit(remap, c[k]))
  }

  ghost predicate CnfOk(n: nat, cnf: seq<seq<int>>) {
    forall k | 0 <= k < |cnf| :: ClauseOk(n, cnf[k])
  }

  function RemapCnf(remap: seq<int>, cnf: seq<seq<int>>): (d: seq<seq<int>>)
    requires CnfOk(|remap|, cnf)
    ensures |d| == |cnf| && forall k | 0 <= k < |cnf| :: ClauseOk(|remap|, cnf[k]) && d[k] == RemapClause(remap, cnf[k])
  {
    seq(|cnf|, k requires 0 <= k < |cnf| && ClauseOk(|remap|, cnf[k]) => RemapClause(remap, cnf[k]))
  }

  // ---- it keeps the problem's models ---------------------------------------------------------

  /** With every read's value under its name, an atom and its rewriting agree. */
  lemma MappedTruth(now: Tables, atoms: seq<Eq>, remap: seq<int>, k: nat, v: Valuation, w: nat)
    requires AllMapped(now, atoms, remap) && AllNamed(now.table, v, w) && k < |remap|
    ensures remap[k] > 0
    ensures k + 1 in Truth(atoms, v, w) <==> remap[k] in Truth(now.atoms, v, w)
  {
    hide Rewrite, AllNamed;
    assert Mapped(now, atoms[k], remap[k]);
    RewriteVal(now.table, atoms[k].t1, v, w);
    RewriteVal(now.table, atoms[k].t2, v, w);
    AtomTruth(now.atoms, remap[k], Rewrite(now.table, atoms[k].t1).value, Rewrite(now.table, atoms[k].t2).value, v, w);
    assert IsTrue(atoms, k + 1, v, w) <==> Holds(atoms[k], v, w);
  }

  lemma ClauseMapped(now: Tables, atoms: seq<Eq>, remap: seq<int>, c: seq<int>, v: Valuation, w: nat)
    requires AllMapped(now, atoms, remap) && AllNamed(now.table, v, w) && ClauseOk(|remap|, c)
    ensures HoldsClause(Truth(atoms, v, w), c) <==> HoldsClause(Truth(now.atoms, v, w), RemapClause(remap, c))
  {
    hide AllNamed, AllMapped, Truth;
    var m, m', d := Truth(atoms, v, w), Truth(now.atoms, v, w), RemapClause(remap, c);
    forall k | 0 <= k < |c| ensures HoldsLit(m, c[k]) <==> HoldsLit(m', d[k]) {
      assert LitOk(|remap|, c[k]);
      MappedTruth(now, atoms, remap, Sat.Var(c[k]) - 1, v, w);
    }
    if HoldsClause(m, c) {
      var l :| l in c && HoldsLit(m, l);
      var k :| 0 <= k < |c| && c[k] == l;
      assert d[k] in d;
    }
    if HoldsClause(m', d) {
      var l :| l in d && HoldsLit(m', l);
      var k :| 0 <= k < |d| && d[k] == l;
      assert c[k] in c;
    }
  }

  lemma CnfMapped(now: Tables, atoms: seq<Eq>, remap: seq<int>, cnf: seq<seq<int>>, v: Valuation, w: nat)
    requires AllMapped(now, atoms, remap) && AllNamed(now.table, v, w) && CnfOk(|remap|, cnf)
    ensures Satisfies(atoms, cnf, v, w) <==> Satisfies(now.atoms, RemapCnf(remap, cnf), v, w)
  {
    hide AllNamed, AllMapped, Truth, HoldsClause;
    var d := RemapCnf(remap, cnf);
    forall k | 0 <= k < |cnf|
        ensures HoldsClause(Truth(atoms, v, w), cnf[k]) <==> HoldsClause(Truth(now.atoms, v, w), d[k]) {
      ClauseMapped(now, atoms, remap, cnf[k], v, w);
    }
  }

  lemma SatisfiesBoth(atoms: seq<Eq>, f: seq<seq<int>>, g: seq<seq<int>>, v: Valuation, w: nat)
    ensures Satisfies(atoms, f + g, v, w) <==> Satisfies(atoms, f, v, w) && Satisfies(atoms, g, v, w)
  {
    hide Truth, HoldsClause;
    var m := Truth(atoms, v, w);
    if HoldsAll(m, f + g) {
      forall k | 0 <= k < |f| ensures HoldsClause(m, f[k]) { assert (f + g)[k] == f[k]; }
      forall k | 0 <= k < |g| ensures HoldsClause(m, g[k]) { assert (f + g)[|f| + k] == g[k]; }
    }
  }

  /** Valuations that give every atom the same sides satisfy the same clauses. */
  ghost predicate SameSides(atoms: seq<Eq>, v: Valuation, u: Valuation, w: nat) {
    forall k | 0 <= k < |atoms| :: Holds(atoms[k], v, w) <==> Holds(atoms[k], u, w)
  }

  lemma SameTruth(atoms: seq<Eq>, v: Valuation, u: Valuation, w: nat)
    requires SameSides(atoms, v, u, w)
    ensures Truth(atoms, v, w) == Truth(atoms, u, w)
  {
    hide Holds;
    forall i: int ensures i in Truth(atoms, v, w) <==> i in Truth(atoms, u, w) {
      if 1 <= i <= |atoms| {
        assert Holds(atoms[i - 1], v, w) <==> Holds(atoms[i - 1], u, w);
      }
    }
  }

  /** The fresh words leave the problem's own atoms alone. */
  lemma ExtendSame(now: Tables, atoms: seq<Eq>, remap: seq<int>, v: Valuation, w: nat)
    requires Complete(now, atoms, remap) && NamesUnused(UserWords(atoms), |now.keys|)
    ensures SameSides(atoms, v, Extend(v, now.keys, |now.keys|, w), w)
  {
    hide Words, AllMapped, Closed, OnlyAxioms, Val;
    var u := Extend(v, now.keys, |now.keys|, w);
    ExtendArrays(v, now.keys, |now.keys|, w);
    forall x | x in UserWords(atoms) ensures u.words(x) == v.words(x) {
      ExtendKeeps(v, now.keys, 0, |now.keys|, w, UserWords(atoms), x);
    }
    forall k | 0 <= k < |atoms| ensures Holds(atoms[k], v, w) <==> Holds(atoms[k], u, w) {
      assert EqWords(atoms[k]) <= UserWords(atoms);
      ValWords(atoms[k].t1, v, u, w);
      ValWords(atoms[k].t2, v, u, w);
    }
  }

  lemma ExtraHold(now: Tables, atoms: seq<Eq>, remap: seq<int>, v: Valuation, w: nat)
    requires Complete(now, atoms, remap) && AllNamed(now.table, v, w)
    ensures Satisfies(now.atoms, now.extra, v, w)
  {
    hide AllNamed, AllMapped, Truth, HoldsClause, IsAxiom, Closed;
    forall k | 0 <= k < |now.extra| ensures HoldsClause(Truth(now.atoms, v, w), now.extra[k]) {
      assert now.extra[k] in now.extra;
      AxiomHolds(now.table, now.atoms, now.extra[k], v, w);
    }
  }

  /** A valuation of the problem, with the reads' values as fresh words, satisfies the
      reduction. */
  lemma Reduces(now: Tables, atoms: seq<Eq>, remap: seq<int>, cnf: seq<seq<int>>, v: Valuation, w: nat)
    requires Complete(now, atoms, remap) && CnfOk(|atoms|, cnf) && Satisfies(atoms, cnf, v, w)
    requires NamesUnused(UserWords(atoms), |now.keys|)
    ensures Satisfies(now.atoms, RemapCnf(remap, cnf) + now.extra, Extend(v, now.keys, |now.keys|, w), w)
  {
    hide Truth, AllNamed, AllMapped, Closed, OnlyAxioms, SameSides, Ordered;
    var u := Extend(v, now.keys, |now.keys|, w);
    ExtendSame(now, atoms, remap, v, w);
    SameTruth(atoms, v, u, w);
    ExtendNamed(now.table, now.keys, UserWords(atoms), v, w);
    CnfMapped(now, atoms, remap, cnf, u, w);
    ExtraHold(now, atoms, remap, u, w);
    SatisfiesBoth(now.atoms, RemapCnf(remap, cnf), now.extra, u, w);
  }

  // ---- and adds none ---------------------------------------------------------------------------

  lemma ArraysSame(now: Tables, atoms: seq<Eq>, remap: seq<int>, v: Valuation, w: nat)
    requires Complete(now, atoms, remap)
    ensures SameSides(now.atoms, v, WithArrays(now.table, v, w), w)
  {
    hide AllMapped, Closed, OnlyAxioms, Lowerable, Ordered;
    var u := WithArrays(now.table, v, w);
    forall k | 0 <= k < |now.atoms| ensures Holds(now.atoms[k], v, w) <==> Holds(now.atoms[k], u, w) {
      assert AtomOk(now.atoms[k]);
      LowerableFree(now.atoms[k].t1);
      LowerableFree(now.atoms[k].t2);
      FreeVal(now.atoms[k].t1, v, u, w);
      FreeVal(now.atoms[k].t2, v, u, w);
    }
  }

  lemma AxiomsGiven(now: Tables, atoms: seq<Eq>, remap: seq<int>, v: Valuation, w: nat)
    requires Complete(now, atoms, remap) && Satisfies(now.atoms, now.extra, v, w)
    ensures AxiomsHold(now.table, now.atoms, now.extra, v, w)
  {
    hide AllMapped, Closed, OnlyAxioms, Truth, HoldsClause, Lowerable, Ordered;
    forall key | key in now.table ensures ArrayFree(key.1) {
      LowerableFree(key.1);
    }
    forall c | c in now.extra ensures HoldsClause(Truth(now.atoms, v, w), c) {
      var k :| 0 <= k < |now.extra| && now.extra[k] == c;
    }
  }

  /** A valuation of the reduction, with arrays read off the fresh words, satisfies the
      problem. */
  lemma Reflects(now: Tables, atoms: seq<Eq>, remap: seq<int>, cnf: seq<seq<int>>, v: Valuation, w: nat)
    requires Complete(now, atoms, remap) && CnfOk(|atoms|, cnf)
        && Satisfies(now.atoms, RemapCnf(remap, cnf) + now.extra, v, w)
    ensures Satisfies(atoms, cnf, WithArrays(now.table, v, w), w)
  {
    hide Truth, AllNamed, AllMapped, Sound, AxiomsHold, SameSides;
    var u := WithArrays(now.table, v, w);
    SatisfiesBoth(now.atoms, RemapCnf(remap, cnf), now.extra, v, w);
    AxiomsGiven(now, atoms, remap, v, w);
    AllReadsNamed(now.table, now.atoms, now.extra, v, w);
    ArraysSame(now, atoms, remap, v, w);
    SameTruth(now.atoms, v, u, w);
    CnfMapped(now, atoms, remap, cnf, u, w);
  }

  ghost predicate Satisfiable(atoms: seq<Eq>, cnf: seq<seq<int>>, w: nat) {
    exists v :: Satisfies(atoms, cnf, v, w)
  }

  /** A model of the reduction gives one of the problem, whatever names the problem uses. */
  lemma ReductionSound(now: Tables, atoms: seq<Eq>, remap: seq<int>, cnf: seq<seq<int>>, w: nat)
    requires Complete(now, atoms, remap) && CnfOk(|atoms|, cnf)
        && Satisfiable(now.atoms, RemapCnf(remap, cnf) + now.extra, w)
    ensures Satisfiable(atoms, cnf, w)
  {
    hide Complete, Satisfies;
    CompleteSize(now, atoms, remap);
    var v :| Satisfies(now.atoms, RemapCnf(remap, cnf) + now.extra, v, w);
    Reflects(now, atoms, remap, cnf, v, w);
  }

  /** The elimination is equisatisfiable when the problem uses none of the names generated. */
  lemma Equisatisfiable(now: Tables, atoms: seq<Eq>, remap: seq<int>, cnf: seq<seq<int>>, w: nat)
    requires Complete(now, atoms, remap) && CnfOk(|atoms|, cnf) && NamesUnused(UserWords(atoms), |now.keys|)
    ensures Satisfiable(atoms, cnf, w) <==> Satisfiable(now.atoms, RemapCnf(remap, cnf) + now.extra, w)
  {
    hide Complete, Satisfies, NamesUnused;
    CompleteSize(now, atoms, remap);
    if Satisfiable(atoms, cnf, w) {
      var v :| Satisfies(atoms, cnf, v, w);
      Reduces(now, atoms, remap, cnf, v, w);
    }
    if Satisfiable(now.atoms, RemapCnf(remap, cnf) + now.extra, w) {
      ReductionSound(now, atoms, remap, cnf, w);
    }
  }

  lemma CompleteSize(now: Tables, atoms: seq<Eq>, remap: seq<int>)
    requires Complete(now, atoms, remap)
    ensures |remap| == |atoms|
  {
  }

  // ---- the method ----------------------------------------------------------------------------

  lemma AllMappedLater(a: Tables, b: Tables, atoms: seq<Eq>, remap: seq<int>)
    requires AllMapped(a, atoms, remap) && Later(a, b)
    ensures AllMapped(b, atoms, remap)
  {
    hide Rewrite, Later, AtomIs;
    forall k | 0 <= k < |remap| ensures Mapped(b, atoms[k], remap[k]) {
      assert Mapped(a, atoms[k], remap[k]);
      RewriteLater(a, b, atoms[k].t1);
      RewriteLater(a, b, atoms[k].t2);
      AtomLater(a, b, remap[k], Rewrite(a.table, atoms[k].t1).value, Rewrite(a.table, atoms[k].t2).value);
    }
  }

  lemma NoneMapped(now: Tables, atoms: seq<Eq>)
    ensures AllMapped(now, atoms, [])
  {
  }

  lemma AtomWordsKnown(atoms: seq<Eq>, k: nat)
    requires k < |atoms| && ProperEq(atoms[k])
    ensures Words(atoms[k].t1) <= UserWords(atoms) && Words(atoms[k].t2) <= UserWords(atoms)
    ensures ReadsIn(atoms[k].t1) <= ProblemReads(atoms) && ReadsIn(atoms[k].t2) <= ProblemReads(atoms)
    ensures Proper(atoms[k].t1) && Proper(atoms[k].t2)
  {
    assert EqWords(atoms[k]) <= UserWords(atoms) && EqReads(atoms[k]) <= ProblemReads(atoms);
  }

  lemma MappedNew(a: Tables, b: Tables, c: Tables, at: Eq, x: Term, y: Term, p: int)
    requires Later(a, b) && Later(b, c) && AtomIs(c.atoms, p, x, y)
    requires Rewrite(a.table, at.t1) == Option.Some(x) && Rewrite(b.table, at.t2) == Option.Some(y)
    ensures Mapped(c, at, p)
  {
    hide Later, Rewrite;
    LaterTrans(a, b, c);
    RewriteLater(a, c, at.t1);
    RewriteLater(b, c, at.t2);
  }

  lemma MapOne(now: Tables, atoms: seq<Eq>, to: seq<int>, p: int)
    requires AllMapped(now, atoms, to) && |to| < |atoms| && Mapped(now, atoms[|to|], p)
    ensures AllMapped(now, atoms, to + [p])
  {
    hide Mapped;
  }

  lemma NewLits(now: Tables, atoms: seq<Eq>, remap: seq<int>, c: seq<int>)
    requires AllMapped(now, atoms, remap) && ClauseOk(|remap|, c)
    ensures ClauseOk(|now.atoms|, RemapClause(remap, c))
  {
    hide Rewrite;
    var d := RemapClause(remap, c);
    forall k | 0 <= k < |d| ensures LitOk(|now.atoms|, d[k]) {
      assert LitOk(|remap|, c[k]);
      assert Mapped(now, atoms[Sat.Var(c[k]) - 1], remap[Sat.Var(c[k]) - 1]);
    }
  }

  lemma RemappedOk(now: Tables, atoms: seq<Eq>, remap: seq<int>, cnf: seq<seq<int>>)
    requires Complete(now, atoms, remap) && CnfOk(|remap|, cnf)
    ensures CnfOk(|now.atoms|, RemapCnf(remap, cnf) + now.extra)
    ensures forall k | 0 <= k < |now.atoms| :: AtomOk(now.atoms[k])
  {
    hide AllMapped, ClauseOk, Closed, OnlyAxioms, Ordered;
    var d := RemapCnf(remap, cnf);
    forall k | 0 <= k < |cnf| ensures ClauseOk(|now.atoms|, d[k]) {
      NewLits(now, atoms, remap, cnf[k]);
    }
  }

  /** _eliminate_arrays: read-free atoms, and the clauses over them with the axioms. */
  method EliminateArrays(atoms: seq<Eq>, cnf: seq<seq<int>>)
      returns (atoms': seq<Eq>, cnf': seq<seq<int>>, ghost now: Tables, ghost remap: seq<int>)
    requires CnfOk(|atoms|, cnf) && forall k | 0 <= k < |atoms| :: ProperEq(atoms[k])
    ensures Complete(now, atoms, remap) && now.atoms == atoms' && cnf' == RemapCnf(remap, cnf) + now.extra
    ensures (forall k | 0 <= k < |atoms'| :: AtomOk(atoms'[k])) && CnfOk(|atoms'|, cnf')
    ensures forall j, k | 0 <= j < k < |atoms'| :: atoms'[j] != atoms'[k] && atoms'[j] != Eq(atoms'[k].t2, atoms'[k].t1)
  {
    hide Eliminator.Valid, Later, AllMapped, Proper, Lowerable, Sound, UserWords, ProblemReads, FromReads, RemapCnf,
        CnfOk, AtomIdOk, Rewrite;
    var el := new Eliminator(UserWords(atoms), ProblemReads(atoms));
    var to: seq<int> := [];
    NoneMapped(el.Now(), atoms);
    while |to| < |atoms|
      invariant |to| <= |atoms| && el.Valid() && el.pending == {} && AllMapped(el.Now(), atoms, to)
      modifies el
    {
      var k := |to|;
      ghost var a := el.Now();
      AtomWordsKnown(atoms, k);
      var x := el.Elim(atoms[k].t1);
      ghost var b := el.Now();
      el.IndexOk(atoms[k].t1, x);
      var y := el.Elim(atoms[k].t2);
      ghost var c := el.Now();
      el.IndexOk(atoms[k].t2, y);
      var p := el.Atom(x, y);
      MappedNew(b, c, el.Now(), atoms[k], x, y, p);
      LaterTrans(a, b, c);
      LaterTrans(a, c, el.Now());
      AllMappedLater(a, el.Now(), atoms, to);
      MapOne(el.Now(), atoms, to, p);
      to := to + [p];
    }
    el.Finished();
    now, remap := el.Now(), to;
    el.Distinct();
    atoms', cnf' := el.atoms, RemapCnf(to, cnf) + el.extra;
    RemappedOk(now, atoms, to, cnf);
  }

  /** _has_arrays */
  predicate HasArrays(atoms: seq<Eq>) {
    exists k | 0 <= k < |atoms| :: !ArrayFree(atoms[k].t1) || !ArrayFree(atoms[k].t2)
  }

  lemma {:induction false} FreeLowerable(t: Term)
    requires Proper(t) && ArrayFree(t)
    ensures Lowerable(t)
    decreases t
  {
    match t
    case Neg(a) => FreeLowerable(a);
    case Add(ts) =>
      forall k | 0 <= k < |ts| ensures Lowerable(ts[k]) { FreeLowerable(ts[k]); }
    case Sub(a, b) =>
      FreeLowerable(a);
      FreeLowerable(b);
    case Mul(a, b) =>
      FreeLowerable(a);
      FreeLowerable(b);
    case Var(_) =>
    case Const(_) =>
  }

  lemma NoArrays(atoms: seq<Eq>)
    requires !HasArrays(atoms) && forall k | 0 <= k < |atoms| :: ProperEq(atoms[k])
    ensures forall k | 0 <= k < |atoms| :: AtomOk(atoms[k])
  {
    forall k | 0 <= k < |atoms| ensures AtomOk(atoms[k]) {
      FreeLowerable(atoms[k].t1);
      FreeLowerable(atoms[k].t2);
    }
  }

  /** Some arrays make the words a model of the problem. */
  ghost predicate ModelWords(atoms: seq<Eq>, cnf: seq<seq<int>>, words: Name -> int, w: nat) {
    exists arrays :: Satisfies(atoms, cnf, Valuation(words, arrays), w)
  }

  /** The problem that the loop is run on: itself without arrays, and else a reduction of it. */
  ghost predicate Reduced(atoms: seq<Eq>, cnf: seq<seq<int>>, atoms': seq<Eq>, cnf': seq<seq<int>>) {
    if HasArrays(atoms) then exists now, remap :: ReducedBy(now, remap, atoms, cnf, atoms', cnf')
    else atoms' == atoms && cnf' == cnf
  }

  ghost predicate ReducedBy(now: Tables, remap: seq<int>, atoms: seq<Eq>, cnf: seq<seq<int>>, atoms': seq<Eq>,
      cnf': seq<seq<int>>) {
    && Complete(now, atoms, remap) && CnfOk(|remap|, cnf)
    && atoms' == now.atoms && cnf' == RemapCnf(remap, cnf) + now.extra
  }

  /** solve: the reduction first, when there are arrays. What the answer rests on is said of the problem
      that the loop ran on. */
  method Solve(atoms: seq<Eq>, cnf: seq<seq<int>>, w: nat, allowBitblast: bool, depth: nat)
      returns (r: Outcome, ghost ran: seq<Eq>, ghost clauses: seq<seq<int>>)
    requires CnfOk(|atoms|, cnf) && forall k | 0 <= k < |atoms| :: ProperEq(atoms[k])
    ensures Reduced(atoms, cnf, ran, clauses) && Answers(ran, clauses, w, allowBitblast, depth, r)
    ensures r.Unsat? && (NamesFree(atoms) || !HasArrays(atoms)) ==> !Satisfiable(atoms, cnf, w)
    ensures r.SatWitness? ==> Satisfiable(atoms, cnf, w) && ModelWords(atoms, cnf, OfWitness(r.words).words, w)
  {
    hide Satisfies, ProperEq, NamesUnused, AtomOk, ClauseOk, Complete, HasArrays, CheckedOut, Stops, LemmasOf,
        Refutes, WitnessOf;
    if HasArrays(atoms) {
      var atoms', cnf';
      ghost var now, remap;
      atoms', cnf', now, remap := EliminateArrays(atoms, cnf);
      CompleteSize(now, atoms, remap);
      if NamesFree(atoms) {
        NamesCounted(now, atoms, remap);
        NamesFewer(UserWords(atoms), |now.keys|, |ProblemReads(atoms)|);
        Equisatisfiable(now, atoms, remap, cnf, w);
      }
      r := SolveAtoms(atoms', cnf', w, allowBitblast, depth);
      ran, clauses := atoms', cnf';
      assert ReducedBy(now, remap, atoms, cnf, ran, clauses);
      if r.SatWitness? {
        Reflects(now, atoms, remap, cnf, OfWitness(r.words), w);
        SplitValuation(atoms, cnf, WithArrays(now.table, OfWitness(r.words), w), w);
      }
    } else {
      NoArrays(atoms);
      r := SolveAtoms(atoms, cnf, w, allowBitblast, depth);
      ran, clauses := atoms, cnf;
      if r.SatWitness? {
        SplitValuation(atoms, cnf, OfWitness(r.words), w);
      }
    }
  }

  lemma NamesFewer(user: set<Name>, n: nat, more: nat)
    requires NamesUnused(user, more) && n <= more
    ensures NamesUnused(user, n)
  {
  }

  lemma SplitValuation(atoms: seq<Eq>, cnf: seq<seq<int>>, v: Valuation, w: nat)
    requires Satisfies(atoms, cnf, v, w)
    ensures ModelWords(atoms, cnf, v.words, w)
  {
    assert v == Valuation(v.words, v.arrays);
  }
}

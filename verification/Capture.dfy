/** Generated names that the problem uses already: what goes wrong, and exactly when nothing can. */
module Capture {
  import opened Sat
  import opened Circuit
  import opened Modular
  import opened Trail
  import opened Terms
  import opened BitBlast
  import opened Smt
  import opened ArraySpec
  import opened Arrays
  import opened Elimination
  import opened ArraySmt

  // ---- a problem for each name -----------------------------------------------------------------

  function Read0(i: nat): Term {
    Select(Base("m"), Term.Const(i))
  }

  function KeyOf(i: nat): Key {
    (Base("m"), Term.Const(i))
  }

  /** m[0] = s, ..., m[n-1] = s, where s is the n-th generated name. */
  function CaptureAtoms(n: nat): (atoms: seq<Eq>)
    ensures |atoms| == n
  {
    seq(n, (i: nat) => Eq(Read0(i), Term.Var(SelName(n))))
  }

  /** None of them holds. */
  function CaptureCnf(n: nat): (cnf: seq<seq<int>>)
    ensures CnfOk(n, cnf) && |cnf| == n
  {
    seq(n, (i: nat) => [-(i + 1)])
  }

  /** With s = 1 and the memory 0 they do not. */
  lemma CaptureSat(n: nat, w: nat)
    requires w > 0
    ensures Satisfiable(CaptureAtoms(n), CaptureCnf(n), w)
  {
    hide SelName;
    var atoms, cnf := CaptureAtoms(n), CaptureCnf(n);
    var v := Valuation(x => 1, x => j => 0);
    var m := Truth(atoms, v, w);
    OneAndZero(w);
    forall k | 0 <= k < n ensures HoldsClause(m, cnf[k]) {
      assert atoms[k] == Eq(Read0(k), Term.Var(SelName(n)));
      assert Val(Read0(k), v, w) == 0 && Val(Term.Var(SelName(n)), v, w) == 1;
      assert !IsTrue(atoms, k + 1, v, w);
      var l := -(k + 1);
      assert cnf[k] == [l] && l in cnf[k] && HoldsLit(m, l);
    }
    assert Satisfies(atoms, cnf, v, w);
  }

  lemma OneAndZero(w: nat)
    requires w > 0
    ensures 1 % Pow2(w) == 1 && 0 % Pow2(w) == 0
  {
    Pow2Next(w - 1);
    Remainder(1, Pow2(w), 0, 1);
    Remainder(0, Pow2(w), 0, 0);
  }

  // ---- whatever the elimination makes of it ---------------------------------------------------------

  lemma CaptureReads(n: nat)
    ensures forall r | r in ProblemReads(CaptureAtoms(n)) :: exists i: nat :: i < n && r == (Base("m"), Term.Const(i))
  {
    hide SelName;
    var atoms := CaptureAtoms(n);
    forall r | r in ProblemReads(atoms) ensures exists i: nat :: i < n && r == (Base("m"), Term.Const(i)) {
      var k :| 0 <= k < n && r in EqReads(atoms[k]);
      assert atoms[k] == Eq(Read0(k), Term.Var(SelName(n)));
      OneRead(k, SelName(n));
    }
  }

  lemma OneRead(k: nat, x: Name)
    ensures EqReads(Eq(Read0(k), Term.Var(x))) == {(Base("m"), Term.Const(k))}
  {
    assert SubArrays(Base("m")) == {Base("m")};
    assert ReadsAt(Base("m"), Term.Const(k)) == {(Base("m"), Term.Const(k))};
    assert ReadsIn(Term.Const(k)) == {} && ReadsIn(Term.Var(x)) == {} && ArrReads(Base("m")) == {};
  }

  lemma KeyIn(n: nat, now: Tables, key: Key)
    requires FromReads(now.table, ProblemReads(CaptureAtoms(n))) && key in now.table
    ensures exists i: nat :: i < n && key == KeyOf(i)
  {
    hide SelName, ProblemReads, CaptureAtoms;
    CaptureReads(n);
    assert FromRead(now.table, ProblemReads(CaptureAtoms(n)), key);
    var j :| (key.0, j) in ProblemReads(CaptureAtoms(n)) && Rewrite(now.table, j) == Option.Some(key.1);
    var i: nat :| i < n && (key.0, j) == (Base("m"), Term.Const(i));
    assert key == KeyOf(i);
  }

  lemma ReadMapped(n: nat, now: Tables, remap: seq<int>, i: nat)
    requires AllMapped(now, CaptureAtoms(n), remap) && |remap| == n && i < n
    ensures KeyOf(i) in now.table && AtomIs(now.atoms, remap[i], Term.Var(now.table[KeyOf(i)]), Term.Var(SelName(n)))
  {
    hide SelName;
    var atoms := CaptureAtoms(n);
    assert Mapped(now, atoms[i], remap[i]);
    assert atoms[i] == Eq(Read0(i), Term.Var(SelName(n)));
    assert Rewrite(now.table, Term.Const(i)) == Option.Some(Term.Const(i));
  }

  ghost function Keys(n: nat): set<Key> {
    set i: nat | i < n :: KeyOf(i)
  }

  lemma {:induction false} KeysSize(n: nat)
    ensures |Keys(n)| == n
    decreases n
  {
    if n > 0 {
      KeysSize(n - 1);
      assert Keys(n) == Keys(n - 1) + {KeyOf(n - 1)};
      NewKey(n - 1);
    }
  }

  lemma NewKey(n: nat)
    ensures KeyOf(n) !in Keys(n)
  {
    forall i: nat | i < n ensures KeyOf(i) != KeyOf(n) {
      assert KeyOf(i).1 == Term.Const(i) && KeyOf(n).1 == Term.Const(n);
    }
  }

  /** The keys as a set. */
  lemma {:induction false} KeySet(now: Tables, user: set<Name>, k: nat) returns (s: set<Key>)
    requires Ordered(now.table, now.keys, user) && k <= |now.keys|
    ensures |s| == k && forall key :: key in s <==> key in now.keys[..k]
    decreases k
  {
    hide SelName, Words, ArrWords, Known;
    if k == 0 {
      s := {};
    } else {
      var t := KeySet(now, user, k - 1);
      var key := now.keys[k - 1];
      assert now.keys[..k] == now.keys[..k - 1] + [key];
      if key in t {
        var j :| 0 <= j < k - 1 && now.keys[..k - 1][j] == key;
        NotTwice(now, user, j, k - 1);
      }
      s := t + {key};
    }
  }

  /** Its n reads get the first n names: one of them is s itself. */
  lemma Captures(n: nat, now: Tables, remap: seq<int>) returns (i: nat)
    requires n > 0 && Complete(now, CaptureAtoms(n), remap)
    ensures i < n && KeyOf(i) in now.table && now.table[KeyOf(i)] == SelName(n)
  {
    hide SelName, Words, ArrWords, Known, Closed, OnlyAxioms, AllMapped, CaptureAtoms, Lowerable, FromReads;
    var user := UserWords(CaptureAtoms(n));
    var s := KeySet(now, user, |now.keys|);
    assert now.keys[..|now.keys|] == now.keys;
    KeysSize(n);
    forall key ensures key in s <==> key in Keys(n) {
      if key in s {
        assert key in now.table by { var k :| 0 <= k < |now.keys| && now.keys[k] == key; }
        KeyIn(n, now, key);
      }
      if key in Keys(n) {
        var j: nat :| j < n && key == KeyOf(j);
        ReadMapped(n, now, remap, j);
      }
    }
    assert s == Keys(n);
    var key := now.keys[n - 1];
    assert key in now.table;
    KeyIn(n, now, key);
    i :| i < n && key == KeyOf(i);
  }

  /** So the reduction asks that s differ from itself. */
  lemma CaptureUnsat(n: nat, now: Tables, remap: seq<int>, w: nat)
    requires n > 0 && Complete(now, CaptureAtoms(n), remap)
    ensures |remap| == n && !Satisfiable(now.atoms, RemapCnf(remap, CaptureCnf(n)) + now.extra, w)
  {
    hide SelName, Sound, FromReads, AllMapped, CaptureAtoms, Truth;
    var i := Captures(n, now, remap);
    ReadMapped(n, now, remap, i);
    var cnf, p := CaptureCnf(n), remap[i];
    var d := RemapCnf(remap, cnf);
    assert ClauseOk(n, cnf[i]) && |cnf[i]| == 1 && cnf[i][0] + i + 1 == 0;
    var c := RemapClause(remap, cnf[i]);
    assert LitOk(n, cnf[i][0]) && c == [-p];
    assert d[i] == c && (d + now.extra)[i] == c;
    forall v ensures !Satisfies(now.atoms, d + now.extra, v, w) {
      AtomTruth(now.atoms, p, Term.Var(SelName(n)), Term.Var(SelName(n)), v, w);
      assert !HoldsClause(Truth(now.atoms, v, w), c) by { AlwaysFails(Truth(now.atoms, v, w), p); }
    }
  }

  lemma AlwaysFails(m: Model, p: int)
    requires p > 0 && p in m
    ensures !HoldsClause(m, [-p])
  {
  }

  /** The elimination run on such a problem: what it returns has no model, though the problem has. */
  method Captured(n: nat, w: nat)
      returns (atoms': seq<Eq>, cnf': seq<seq<int>>, ghost now: Tables, ghost remap: seq<int>)
    requires n > 0 && w > 0
    ensures Complete(now, CaptureAtoms(n), remap) && now.atoms == atoms'
        && cnf' == RemapCnf(remap, CaptureCnf(n)) + now.extra
    ensures Satisfiable(CaptureAtoms(n), CaptureCnf(n), w) && !Satisfiable(atoms', cnf', w)
  {
    CaptureProper(n);
    hide SelName, Complete, Satisfiable, ProperEq;
    atoms', cnf', now, remap := EliminateArrays(CaptureAtoms(n), CaptureCnf(n));
    CaptureSat(n, w);
    CaptureUnsat(n, now, remap, w);
  }

  lemma CaptureProper(n: nat)
    ensures forall k | 0 <= k < |CaptureAtoms(n)| :: ProperEq(CaptureAtoms(n)[k])
  {
    hide SelName;
    var atoms := CaptureAtoms(n);
    forall k | 0 <= k < |atoms| ensures ProperEq(atoms[k]) {
      assert atoms[k] == Eq(Read0(k), Term.Var(SelName(n)));
      assert ProperArr(Base("m")) && Proper(Term.Const(k));
    }
  }

  // ---- the elimination has an outcome --------------------------------------------------------------

  /** The reads of m[0] to m[j-1] named and congruent, and the first j atoms rewritten. */
  ghost predicate Upto(n: nat, j: nat, now: Tables, remap: seq<int>) {
    && Sound(now.table, now.keys, now.atoms, now.extra, {}, UserWords(CaptureAtoms(n)))
        && |now.keys| == |remap| == j <= n
    && (forall k: nat | k < j :: now.keys[k] == KeyOf(k)) && AllMapped(now, CaptureAtoms(n), remap)
  }

  /** The reads have their congruence clauses with the first k. */
  ghost predicate CongruentTo(now: Tables, key: Key, k: nat) {
    forall i: nat | i < k :: HasCongruent(now, key, KeyOf(i))
  }

  lemma NothingYet(n: nat)
    ensures Upto(n, 0, Tables(map[], [], [], []), [])
  {
    hide SelName, CaptureAtoms;
  }

  /** The next read named. */
  lemma NameNext(n: nat, j: nat, now: Tables, remap: seq<int>) returns (next: Tables)
    requires Upto(n, j, now, remap) && j < n
    ensures Sound(next.table, next.keys, next.atoms, next.extra, {KeyOf(j)}, UserWords(CaptureAtoms(n)))
        && Later(now, next)
    ensures |next.keys| == j + 1 && (forall k: nat | k <= j :: next.keys[k] == KeyOf(k)) && next.atoms == now.atoms
    ensures forall k: nat | k <= j :: KeyOf(k) in next.table && next.table[KeyOf(k)] == SelName(k + 1)
  {
    hide SelName, CaptureAtoms, UserWords, AllMapped, Closed, OnlyAxioms;
    var key := KeyOf(j);
    KeyNew(n, j, now, remap);
    assert Words(key.1) == {} && ArrWords(key.0) == {};
    SoundKey(now.table, now.keys, now.atoms, now.extra, {}, UserWords(CaptureAtoms(n)), key);
    assert {} + {key} == {key};
    next := Tables(now.table[key := SelName(j + 1)], now.keys + [key], now.atoms, now.extra);
    forall k: nat | k <= j ensures KeyOf(k) in next.table && next.table[KeyOf(k)] == SelName(k + 1) {
      assert next.keys[k] == KeyOf(k);
    }
  }

  lemma KeyNew(n: nat, j: nat, now: Tables, remap: seq<int>)
    requires Upto(n, j, now, remap)
    ensures KeyOf(j) !in now.table
  {
    hide SelName, CaptureAtoms, UserWords, AllMapped, Closed, OnlyAxioms, Known, Words, ArrWords;
    forall key | key in now.table ensures key != KeyOf(j) {
      var k: nat :| k < |now.keys| && now.keys[k] == key;
      assert KeyOf(k).1 == Term.Const(k) && KeyOf(j).1 == Term.Const(j);
    }
  }

  /** One more congruence clause. */
  lemma CongruenceNext(now: Tables, pending: set<Key>, user: set<Name>, j: nat, k: nat) returns (next: Tables)
    requires Sound(now.table, now.keys, now.atoms, now.extra, pending, user) && k < j && CongruentTo(now, KeyOf(j), k)
    requires KeyOf(j) in now.table && KeyOf(k) in now.table
    ensures Sound(next.table, next.keys, next.atoms, next.extra, pending, user) && Later(now, next)
        && CongruentTo(next, KeyOf(j), k + 1)
    ensures next.table == now.table && next.keys == now.keys
  {
    hide Sound, CongruentTo, Closed, OnlyAxioms;
    var key, other := KeyOf(j), KeyOf(k);
    var e1, e2 := Eq(key.1, other.1), Eq(Term.Var(now.table[key]), Term.Var(now.table[other]));
    var a1, a2 := now.atoms + [e1], now.atoms + [e1] + [e2];
    var p, q := |a1|, |a2|;
    SoundAtom(now.table, now.keys, now.atoms, now.extra, pending, user, e1);
    SoundAtom(now.table, now.keys, a1, now.extra, pending, user, e2);
    assert a2[p - 1] == e1 && a2[q - 1] == e2;
    assert Congruent(now.table, a2, key, other, p, q);
    PairOk(|a2|, p, q);
    var c: seq<int> := [0 - p, q];
    assert c == [-p, q];
    SoundAxiom(now.table, now.keys, a2, now.extra, pending, user, c);
    next := Tables(now.table, now.keys, a2, now.extra + [c]);
    assert next.extra[|now.extra|] == c;
    CongruentFound(next, key, other, p, q);
    CongruentToNext(now, next, key, k);
  }

  lemma CongruentToNext(now: Tables, next: Tables, key: Key, k: nat)
    requires CongruentTo(now, key, k) && Later(now, next) && HasCongruent(next, key, KeyOf(k))
    ensures CongruentTo(next, key, k + 1)
  {
    hide HasCongruent, Later;
    forall i: nat | i < k + 1 ensures HasCongruent(next, key, KeyOf(i)) {
      if i < k {
        CongruentKept(now, next, key, KeyOf(i));
      }
    }
  }

  /** The next atom. */
  lemma AtomNext(n: nat, j: nat, now: Tables, remap: seq<int>) returns (next: Tables, p: int)
    requires Sound(now.table, now.keys, now.atoms, now.extra, {}, UserWords(CaptureAtoms(n))) && j < n && |remap| == j
    requires AllMapped(now, CaptureAtoms(n), remap) && KeyOf(j) in now.table
    ensures Sound(next.table, next.keys, next.atoms, next.extra, {}, UserWords(CaptureAtoms(n)))
    ensures next.table == now.table && next.keys == now.keys && AllMapped(next, CaptureAtoms(n), remap + [p])
  {
    hide Sound, AllMapped, SelName, UserWords;
    var x := Term.Var(now.table[KeyOf(j)]);
    var e := Eq(x, Term.Var(SelName(n)));
    SoundAtom(now.table, now.keys, now.atoms, now.extra, {}, UserWords(CaptureAtoms(n)), e);
    next := Tables(now.table, now.keys, now.atoms + [e], now.extra);
    p := |next.atoms|;
    assert CaptureAtoms(n)[j] == Eq(Read0(j), Term.Var(SelName(n)));
    assert Rewrite(next.table, Term.Const(j)) == Option.Some(Term.Const(j));
    assert Rewrite(next.table, Read0(j)) == Option.Some(x) && next.atoms[p - 1] == e;
    AllMappedLater(now, next, CaptureAtoms(n), remap);
    MapOne(next, CaptureAtoms(n), remap, p);
  }

  /** From the first j reads to one more. */
  lemma OneMore(n: nat, j: nat, now: Tables, remap: seq<int>) returns (next: Tables, p: int)
    requires Upto(n, j, now, remap) && j < n
    ensures Upto(n, j + 1, next, remap + [p])
  {
    hide Sound, SelName, CaptureAtoms, UserWords, AllMapped, CongruentTo, Later;
    var user, key := UserWords(CaptureAtoms(n)), KeyOf(j);
    next := NameNext(n, j, now, remap);
    ghost var named := next;
    var k := 0;
    LaterRefl(next);
    NoneCongruent(next, key);
    while k < j
      invariant k <= j && Sound(next.table, next.keys, next.atoms, next.extra, {key}, user)
      invariant next.table == named.table && next.keys == named.keys && Later(named, next) && CongruentTo(next, key, k)
    {
      var before := next;
      next := CongruenceNext(next, {key}, user, j, k);
      LaterTrans(named, before, next);
      k := k + 1;
    }
    BaseFinished(n, j, next, user);
    LaterTrans(now, named, next);
    AllMappedLater(now, next, CaptureAtoms(n), remap);
    next, p := AtomNext(n, j, next, remap);
  }

  lemma NoneCongruent(now: Tables, key: Key)
    ensures CongruentTo(now, key, 0)
  {
  }

  lemma BaseFinished(n: nat, j: nat, now: Tables, user: set<Name>)
    requires Sound(now.table, now.keys, now.atoms, now.extra, {KeyOf(j)}, user) && CongruentTo(now, KeyOf(j), j)
    requires |now.keys| == j + 1 && forall k: nat | k <= j :: now.keys[k] == KeyOf(k)
    ensures Sound(now.table, now.keys, now.atoms, now.extra, {}, user)
  {
    hide SelName, Closed, OnlyAxioms, BaseAxiom, Words, ArrWords, Known;
    var key := KeyOf(j);
    forall other | other in now.table && other.0 == key.0 && other != key && other !in {key} - {key}
      ensures BaseAxiom(now.table, now.atoms, now.extra, key, other)
    {
      var k: nat :| k < |now.keys| && now.keys[k] == other;
      assert HasCongruent(now, key, KeyOf(k));
    }
    SoundBase(now.table, now.keys, now.atoms, now.extra, {key}, user, key);
    assert {key} - {key} == {};
  }

  /** An outcome of the elimination on such a problem. */
  lemma Outcome(n: nat) returns (now: Tables, remap: seq<int>)
    ensures Complete(now, CaptureAtoms(n), remap)
  {
    hide Upto, CaptureAtoms;
    now, remap := Tables(map[], [], [], []), [];
    NothingYet(n);
    var j := 0;
    while j < n
      invariant j <= n && Upto(n, j, now, remap)
    {
      var p;
      now, p := OneMore(n, j, now, remap);
      remap := remap + [p];
      j := j + 1;
    }
    UptoComplete(n, now, remap);
  }

  lemma UptoComplete(n: nat, now: Tables, remap: seq<int>)
    requires Upto(n, n, now, remap)
    ensures Complete(now, CaptureAtoms(n), remap)
  {
    hide SelName, UserWords, AllMapped, Closed, OnlyAxioms, Words, ArrWords, Known, ProblemReads, CaptureAtoms;
    CaptureMakes(n);
    forall key | key in now.table ensures FromRead(now.table, ProblemReads(CaptureAtoms(n)), key) {
      var k: nat :| k < |now.keys| && now.keys[k] == key;
      assert key == KeyOf(k) && Rewrite(now.table, Term.Const(k)) == Option.Some(Term.Const(k));
      assert (key.0, Term.Const(k)) in ProblemReads(CaptureAtoms(n));
    }
  }

  lemma CaptureMakes(n: nat)
    ensures forall k: nat | k < n :: (Base("m"), Term.Const(k)) in ProblemReads(CaptureAtoms(n))
  {
    hide SelName;
    var atoms := CaptureAtoms(n);
    forall k: nat | k < n ensures (Base("m"), Term.Const(k)) in ProblemReads(atoms) {
      assert atoms[k] == Eq(Read0(k), Term.Var(SelName(n)));
      OneRead(k, SelName(n));
      assert (Base("m"), Term.Const(k)) in EqReads(atoms[k]);
    }
  }

  // ---- exactly when no problem goes wrong --------------------------------------------------------------

  ghost predicate Over(atoms: seq<Eq>, ns: set<Name>) {
    UserWords(atoms) <= ns
  }

  /** However the elimination comes out, the reduction has a model just when the problem has. */
  ghost predicate AlwaysExact(atoms: seq<Eq>, cnf: seq<seq<int>>, w: nat)
    requires CnfOk(|atoms|, cnf)
  {
    forall now, remap | Complete(now, atoms, remap) :: Exact(atoms, cnf, now, remap, w)
  }

  ghost predicate Exact(atoms: seq<Eq>, cnf: seq<seq<int>>, now: Tables, remap: seq<int>, w: nat)
    requires CnfOk(|atoms|, cnf)
  {
    |remap| == |atoms| ==> (Satisfiable(atoms, cnf, w) <==> Satisfiable(now.atoms, RemapCnf(remap, cnf) + now.extra, w))
  }

  /** The elimination is exact on every problem over these words if and only if none of them is a
      name that can be generated. */
  lemma NamesIff(ns: set<Name>, w: nat)
    requires w > 0
    ensures (forall atoms, cnf | CnfOk(|atoms|, cnf) && Over(atoms, ns) :: AlwaysExact(atoms, cnf, w)) <==>
        forall k: nat | k > 0 :: SelName(k) !in ns
  {
    hide SelName, Complete, Satisfiable, CaptureAtoms, CaptureCnf, UserWords, RemapCnf;
    if forall k: nat | k > 0 :: SelName(k) !in ns {
      forall atoms, cnf | CnfOk(|atoms|, cnf) && Over(atoms, ns) ensures AlwaysExact(atoms, cnf, w) {
        forall now, remap | Complete(now, atoms, remap) ensures Exact(atoms, cnf, now, remap, w) {
          assert NamesUnused(UserWords(atoms), |now.keys|);
          Equisatisfiable(now, atoms, remap, cnf, w);
        }
      }
    }
    forall n: nat | n > 0 && SelName(n) in ns
      ensures exists atoms, cnf | CnfOk(|atoms|, cnf) && Over(atoms, ns) :: !AlwaysExact(atoms, cnf, w)
    {
      var atoms, cnf := CaptureAtoms(n), CaptureCnf(n);
      CaptureWords(n);
      var now, remap := Outcome(n);
      CaptureSat(n, w);
      CaptureUnsat(n, now, remap, w);
      assert !Exact(atoms, cnf, now, remap, w);
      assert CnfOk(|atoms|, cnf) && Over(atoms, ns) && !AlwaysExact(atoms, cnf, w);
    }
  }

  lemma CaptureWords(n: nat)
    ensures UserWords(CaptureAtoms(n)) <= {SelName(n)}
  {
    hide SelName;
    var atoms := CaptureAtoms(n);
    forall x | x in UserWords(atoms) ensures x == SelName(n) {
      var k :| 0 <= k < |atoms| && x in EqWords(atoms[k]);
      assert atoms[k] == Eq(Read0(k), Term.Var(SelName(n)));
      assert Words(Read0(k)) == {} by { assert ArrWords(Base("m")) == {} && Words(Term.Const(k)) == {}; }
    }
  }
}

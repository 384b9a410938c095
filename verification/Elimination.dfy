/** Replacing array reads by fresh words, with the read-over-write and congruence clauses,
    before DPLL(T). */
module Elimination {
  import opened Sat
  import opened Circuit
  import opened Trail
  import opened Terms
  import opened BitBlast
  import opened ArraySpec
  import opened Arrays

  /** The tables at one moment. */
  datatype Tables = Tables(table: Table, keys: seq<Key>, atoms: seq<Eq>, extra: seq<seq<int>>)

  ghost predicate Later(a: Tables, b: Tables) {
    Grown(a.table, b.table) && a.keys <= b.keys && a.atoms <= b.atoms && a.extra <= b.extra
  }

  lemma LaterTrans(a: Tables, b: Tables, c: Tables)
    requires Later(a, b) && Later(b, c)
    ensures Later(a, c)
  {
  }

  lemma LaterRefl(a: Tables)
    ensures Later(a, a)
  {
  }

  /** One index for each equality, whichever way round it is written. */
  ghost predicate AtomIdOk(atoms: seq<Eq>, atomId: map<(Term, Term), nat>) {
    AtomIds(atoms, atomId) && forall x :: OneWay(atomId, x)
  }

  ghost predicate AtomIds(atoms: seq<Eq>, atomId: map<(Term, Term), nat>) {
    (forall k: nat :: Indexed(atoms, atomId, k)) && forall x :: Refers(atoms, atomId, x)
  }

  ghost predicate Indexed(atoms: seq<Eq>, atomId: map<(Term, Term), nat>, k: nat) {
    k < |atoms| ==> (atoms[k].t1, atoms[k].t2) in atomId && atomId[(atoms[k].t1, atoms[k].t2)] == k + 1
  }

  ghost predicate Refers(atoms: seq<Eq>, atomId: map<(Term, Term), nat>, x: (Term, Term)) {
    x in atomId ==> 1 <= atomId[x] <= |atoms| && atoms[atomId[x] - 1] == Eq(x.0, x.1)
  }

  ghost predicate OneWay(atomId: map<(Term, Term), nat>, x: (Term, Term)) {
    x in atomId && (x.1, x.0) in atomId ==> x.0 == x.1
  }

  lemma AtomIdAdd(atoms: seq<Eq>, atomId: map<(Term, Term), nat>, a: Term, b: Term)
    requires AtomIdOk(atoms, atomId) && (a, b) !in atomId && (b, a) !in atomId
    ensures AtomIdOk(atoms + [Eq(a, b)], atomId[(a, b) := |atoms| + 1])
  {
    hide OneWay, AtomIds;
    AtomIdsAdd(atoms, atomId, a, b);
    var atomId' := atomId[(a, b) := |atoms| + 1];
    forall x ensures OneWay(atomId', x) {
      OneWayAdd(atomId, a, b, |atoms| + 1, x);
    }
  }

  lemma AtomIdsAdd(atoms: seq<Eq>, atomId: map<(Term, Term), nat>, a: Term, b: Term)
    requires AtomIds(atoms, atomId) && (a, b) !in atomId
    ensures AtomIds(atoms + [Eq(a, b)], atomId[(a, b) := |atoms| + 1])
  {
    var atoms', atomId' := atoms + [Eq(a, b)], atomId[(a, b) := |atoms| + 1];
    forall k: nat ensures Indexed(atoms', atomId', k) {
      assert Indexed(atoms, atomId, k);
    }
    forall x ensures Refers(atoms', atomId', x) {
      assert Refers(atoms, atomId, x);
    }
  }

  lemma OneWayAdd(atomId: map<(Term, Term), nat>, a: Term, b: Term, n: nat, x: (Term, Term))
    requires OneWay(atomId, x) && (a, b) !in atomId && (b, a) !in atomId
    ensures OneWay(atomId[(a, b) := n], x)
  {
  }

  lemma AtomFound(atoms: seq<Eq>, atomId: map<(Term, Term), nat>, a: Term, b: Term)
    requires AtomIdOk(atoms, atomId) && (a, b) in atomId
    ensures AtomIs(atoms, atomId[(a, b)], a, b) && AtomIs(atoms, atomId[(a, b)], b, a)
  {
    hide OneWay;
    assert Refers(atoms, atomId, (a, b));
  }

  /** No equality is listed twice. */
  lemma AtomsDistinct(atoms: seq<Eq>, atomId: map<(Term, Term), nat>, j: nat, k: nat)
    requires AtomIdOk(atoms, atomId) && j < k < |atoms|
    ensures atoms[j] != atoms[k] && atoms[j] != Eq(atoms[k].t2, atoms[k].t1)
  {
    assert OneWay(atomId, (atoms[j].t1, atoms[j].t2)) && Indexed(atoms, atomId, j) && Indexed(atoms, atomId, k);
    var x, y := (atoms[j].t1, atoms[j].t2), (atoms[k].t1, atoms[k].t2);
    assert atomId[x] == j + 1 && atomId[y] == k + 1;
  }

  /** The earlier reads of each array variable, but for those still being processed. */
  ghost predicate ReadsOk(table: Table, seen: map<Name, seq<(Term, Name)>>, pending: set<Key>) {
    && (forall x, k | x in seen && 0 <= k < |seen[x]| ::
        (Base(x), seen[x][k].0) in table && table[(Base(x), seen[x][k].0)] == seen[x][k].1)
    && forall key | key in table && key.0.Base? && key !in pending :: ReadListed(table, seen, key)
  }

  ghost predicate ReadListed(table: Table, seen: map<Name, seq<(Term, Name)>>, key: Key)
    requires key in table && key.0.Base?
  {
    key.0.id in seen && (key.1, table[key]) in seen[key.0.id]
  }

  function ReadsOf(seen: map<Name, seq<(Term, Name)>>, x: Name): seq<(Term, Name)> {
    if x in seen then seen[x] else []
  }

  lemma ReadsKey(table: Table, seen: map<Name, seq<(Term, Name)>>, pending: set<Key>, key: Key, n: Name)
    requires ReadsOk(table, seen, pending) && key !in table
    ensures ReadsOk(table[key := n], seen, pending + {key})
  {
    var table' := table[key := n];
    forall x | x in table' && x.0.Base? && x !in pending + {key} ensures ReadListed(table', seen, x) {
      assert ReadListed(table, seen, x);
    }
  }

  lemma ReadsAdd(table: Table, seen: map<Name, seq<(Term, Name)>>, pending: set<Key>, x: Name, jj: Term)
    requires ReadsOk(table, seen, pending) && (Base(x), jj) in table
    ensures ReadsOk(table, seen[x := ReadsOf(seen, x) + [(jj, table[(Base(x), jj)])]], pending - {(Base(x), jj)})
  {
    var e := (jj, table[(Base(x), jj)]);
    var more := ReadsOf(seen, x) + [e];
    var seen' := seen[x := more];
    assert more[|more| - 1] == e;
    forall key | key in table && key.0.Base? && key !in pending - {(Base(x), jj)}
        ensures ReadListed(table, seen', key) {
      if key.0.id == x && key.1 == jj {
        assert key == (Base(x), jj);
      } else {
        assert ReadListed(table, seen, key);
        if key.0.id == x {
          var k :| 0 <= k < |seen[x]| && seen[x][k] == (key.1, table[key]);
          assert more[k] == seen[x][k];
        }
      }
    }
  }

  lemma KnownMore(user: set<Name>, j: nat, k: nat)
    requires j <= k
    ensures Known(user, j) <= Known(user, k)
  {
  }

  lemma ArgsRewritten(table: Table, ts: seq<Term>, out: seq<Term>)
    requires |out| == |ts| && forall k | 0 <= k < |ts| :: Rewrite(table, ts[k]) == Option.Some(out[k])
    ensures Rewrite(table, Add(ts)) == Option.Some(Add(out))
  {
    var r := Rewrite(table, Add(ts));
    assert r.value.terms == out;
  }

  lemma PairOk(n: nat, p: int, q: int)
    requires 1 <= p <= n && 1 <= q <= n
    ensures ClauseOk(n, [-p, q]) && ClauseOk(n, [p, q])
  {
  }

  lemma AtomIndex(atoms: seq<Eq>, p: int, a: Term, b: Term)
    requires AtomIs(atoms, p, a, b)
    ensures 1 <= p <= |atoms|
  {
  }

  lemma LowerableVar(x: Name)
    ensures Lowerable(Term.Var(x))
  {
  }

  /** What rewriting the array index or stored term tells about it. */
  lemma Rewritten(table: Table, keys: seq<Key>, atoms: seq<Eq>, extra: seq<seq<int>>, pending: set<Key>,
      user: set<Name>, t: Term, r: Term)
    requires Sound(table, keys, atoms, extra, pending, user) && Proper(t) && Words(t) <= user
        && Rewrite(table, t) == Option.Some(r)
    ensures Lowerable(r) && Words(r) <= Known(user, |keys|)
  {
    hide Proper, Words, Rewrite, Closed, OnlyAxioms, Lowerable, Known;
    RewriteLowerable(table, t);
    RewriteWords(table, keys, user, t);
  }

  ghost predicate HasOverwritten(now: Tables, key: Key, p: int) {
    exists q :: Overwritten(now.table, now.atoms, key, p, q) && [-p, q] in now.extra
  }

  ghost predicate HasUntouched(now: Tables, key: Key, p: int) {
    exists r :: Untouched(now.table, now.atoms, key, p, r) && [p, r] in now.extra
  }

  ghost predicate HasCongruent(now: Tables, key: Key, other: Key) {
    BaseAxiom(now.table, now.atoms, now.extra, key, other)
  }

  lemma CongruentKept(a: Tables, b: Tables, key: Key, other: Key)
    requires Later(a, b) && HasCongruent(a, key, other)
    ensures HasCongruent(b, key, other)
  {
    BaseAxiomLater(a.table, a.atoms, a.extra, b.table, b.atoms, b.extra, key, other);
  }

  lemma BaseDone(now: Tables, seen: map<Name, seq<(Term, Name)>>, pending: set<Key>, user: set<Name>, x: Name, jj: Term)
    requires Sound(now.table, now.keys, now.atoms, now.extra, pending, user) && ReadsOk(now.table, seen, pending)
    requires forall e | e in ReadsOf(seen, x) :: HasCongruent(now, (Base(x), jj), (Base(x), e.0))
    ensures Sound(now.table, now.keys, now.atoms, now.extra, pending - {(Base(x), jj)}, user)
  {
    hide Sound;
    var key := (Base(x), jj);
    forall other | other in now.table && other.0 == key.0 && other != key && other !in pending - {key}
      ensures BaseAxiom(now.table, now.atoms, now.extra, key, other)
    {
      assert ReadListed(now.table, seen, other);
      assert HasCongruent(now, key, (Base(x), other.1)) && other == (Base(x), other.1);
    }
    SoundBase(now.table, now.keys, now.atoms, now.extra, pending, user, key);
  }

  lemma StoreHas(a: Tables, b: Tables, key: Key, p: int)
    requires HasOverwritten(a, key, p) && Later(a, b) && HasUntouched(b, key, p)
    ensures StoreAxioms(b.table, b.atoms, b.extra, key)
  {
    hide Overwritten, Untouched, Grown;
    var q :| Overwritten(a.table, a.atoms, key, p, q) && [-p, q] in a.extra;
    OverwrittenLater(a.table, a.atoms, b.table, b.atoms, key, p, q);
  }

  lemma RewriteLater(a: Tables, b: Tables, t: Term)
    requires Later(a, b) && Rewrite(a.table, t).Some?
    ensures Rewrite(b.table, t) == Rewrite(a.table, t)
  {
    RewriteGrown(a.table, b.table, t);
  }

  lemma AtomLater(a: Tables, b: Tables, p: int, x: Term, y: Term)
    requires Later(a, b) && AtomIs(a.atoms, p, x, y)
    ensures AtomIs(b.atoms, p, x, y)
  {
    AtomIsLater(a.atoms, b.atoms, p, x, y);
  }

  lemma KeyLater(a: Tables, b: Tables, key: Key)
    requires Later(a, b) && key in a.table
    ensures key in b.table && b.table[key] == a.table[key]
  {
  }

  lemma LaterKnown(a: Tables, b: Tables, user: set<Name>, t: Term)
    requires Later(a, b) && Words(t) <= Known(user, |a.keys|)
    ensures Words(t) <= Known(user, |b.keys|)
  {
    hide Words, Grown;
    KnownMore(user, |a.keys|, |b.keys|);
  }

  lemma LeafRewritten(table: Table, t: Term)
    requires t.Var? || t.Const?
    ensures Rewrite(table, t) == Option.Some(t)
  {
  }

  lemma OneRewritten(table: Table, a: Term, x: Term)
    requires Rewrite(table, a) == Option.Some(x)
    ensures Rewrite(table, Neg(a)) == Option.Some(Neg(x))
  {
  }

  lemma TwoRewritten(table: Table, a: Term, x: Term, b: Term, y: Term)
    requires Rewrite(table, a) == Option.Some(x) && Rewrite(table, b) == Option.Some(y)
    ensures Rewrite(table, Sub(a, b)) == Option.Some(Sub(x, y)) && Rewrite(table, Mul(a, b)) == Option.Some(Mul(x, y))
  {
  }

  lemma SelectRewritten(a: Tables, b: Tables, arr: Arr, i: Term, jj: Term)
    requires Later(a, b) && Rewrite(a.table, i) == Option.Some(jj) && (arr, jj) in b.table
    ensures Rewrite(b.table, Select(arr, i)) == Option.Some(Term.Var(b.table[(arr, jj)]))
  {
    RewriteLater(a, b, i);
  }

  lemma CongruentFound(now: Tables, key: Key, other: Key, p: int, q: int)
    requires Congruent(now.table, now.atoms, key, other, p, q) && [-p, q] in now.extra
    ensures HasCongruent(now, key, other)
  {
  }

  lemma FromMore(table: Table, wanted: set<(Arr, Term)>, key: Key, i: Term, n: Name)
    requires FromReads(table, wanted) && key !in table && (key.0, i) in wanted
        && Rewrite(table, i) == Option.Some(key.1)
    ensures FromReads(table[key := n], wanted)
  {
    hide Rewrite;
    var table' := table[key := n];
    forall x | x in table' ensures FromRead(table', wanted, x) {
      if x == key {
        RewriteGrown(table, table', i);
      } else {
        assert FromRead(table, wanted, x);
        var j :| (x.0, j) in wanted && Rewrite(table, j) == Option.Some(x.1);
        RewriteGrown(table, table', j);
      }
    }
  }

  lemma ReadsBelow(b: Arr, i: Term)
    ensures (b, i) in ReadsAt(b, i) && (b.Store? ==> ReadsAt(b.below, i) <= ReadsAt(b, i))
  {
    assert b in SubArrays(b);
  }

  class Eliminator {
    var atoms: seq<Eq>
    var atomId: map<(Term, Term), nat>
    var extra: seq<seq<int>>
    var selId: Table
    var seen: map<Name, seq<(Term, Name)>>
    var ctr: nat
    /** The reads in naming order, those whose clauses are still to come, and the words
        of the original problem. */
    ghost var keys: seq<Key>
    ghost var pending: set<Key>
    ghost const user: set<Name>
    /** The reads it makes. */
    ghost const wanted: set<(Arr, Term)>

    ghost predicate Valid()
      reads this
    {
      && Sound(selId, keys, atoms, extra, pending, user)
      && AtomIdOk(atoms, atomId) && ReadsOk(selId, seen, pending)
      && ctr == |keys| && (forall key | key in pending :: key in selId) && FromReads(selId, wanted)
    }

    ghost function Now(): Tables
      reads this
    {
      Tables(selId, keys, atoms, extra)
    }

    constructor (ghost user: set<Name>, ghost wanted: set<(Arr, Term)>)
      ensures Valid() && pending == {} && this.user == user && this.wanted == wanted
    {
      atoms, atomId, extra, selId, seen, ctr := [], map[], [], map[], map[], 0;
      keys, pending := [], {};
      this.user, this.wanted := user, wanted;
    }

    /** A: the index of (= a b), a new one if it has none. */
    method Atom(a: Term, b: Term) returns (p: int)
      requires Valid() && Lowerable(a) && Lowerable(b)
      modifies this`atoms, this`atomId
      ensures Valid() && Later(old(Now()), Now()) && AtomIs(atoms, p, a, b)
    {
      hide Sound, Lowerable, ReadsOk, AtomIdOk;
      LaterRefl(Now());
      if (a, b) in atomId {
        AtomFound(atoms, atomId, a, b);
        return atomId[(a, b)];
      }
      if (b, a) in atomId {
        AtomFound(atoms, atomId, b, a);
        return atomId[(b, a)];
      }
      SoundAtom(selId, keys, atoms, extra, pending, user, Eq(a, b));
      AtomIdAdd(atoms, atomId, a, b);
      atoms := atoms + [Eq(a, b)];
      atomId := atomId[(a, b) := |atoms|];
      p := |atoms|;
    }

    /** One more axiom. */
    method Emit(c: seq<int>)
      requires Valid() && IsAxiom(selId, atoms, c) && ClauseOk(|atoms|, c)
      modifies this`extra
      ensures Valid() && Later(old(Now()), Now()) && extra == old(extra) + [c]
    {
      hide Sound, AtomIdOk, ReadsOk, IsAxiom, ClauseOk;
      LaterRefl(Now());
      SoundAxiom(selId, keys, atoms, extra, pending, user, c);
      extra := extra + [c];
    }

    /** A fresh word for a read that has none. */
    method NewRead(b: Arr, jj: Term, ghost i: Term) returns (n: Name)
      requires (b, i) in wanted && Rewrite(selId, i) == Option.Some(jj)
      requires Valid() && (b, jj) !in selId && Lowerable(jj) && ArrWords(b) <= user && Words(jj) <= Known(user, |keys|)
      modifies this`ctr, this`selId, this`keys, this`pending
      ensures Valid() && Later(old(Now()), Now())
      ensures selId == old(selId)[(b, jj) := n] && pending == old(pending) + {(b, jj)}
    {
      hide Sound, ReadsOk, AtomIdOk, Lowerable, Words, ArrWords, Known, SelName, Rewrite, FromReads;
      FromMore(selId, wanted, (b, jj), i, SelName(|keys| + 1));
      SoundKey(selId, keys, atoms, extra, pending, user, (b, jj));
      ctr := ctr + 1;
      n := SelName(ctr);
      ReadsKey(selId, seen, pending, (b, jj), n);
      selId := selId[(b, jj) := n];
      keys, pending := keys + [(b, jj)], pending + {(b, jj)};
    }

    /** i = j: the stored value. */
    method EmitOverwritten(key: Key, n: Name, p: int, x: Term, y: Term)
      requires Valid() && key in selId && selId[key] == n && key.0.Store? && Lowerable(y)
      requires Rewrite(selId, key.0.at) == Option.Some(x) && Rewrite(selId, key.0.stored) == Option.Some(y)
          && AtomIs(atoms, p, x, key.1)
      modifies this`atoms, this`atomId, this`extra
      ensures Valid() && Later(old(Now()), Now()) && HasOverwritten(Now(), key, p)
    {
      hide Valid, Lowerable, Rewrite, Grown;
      LowerableVar(n);
      var q := Atom(Term.Var(n), y);
      ghost var mid := Now();
      AtomIsLater(old(atoms), atoms, p, x, key.1);
      assert Overwritten(selId, atoms, key, p, q);
      AtomIndex(atoms, p, x, key.1);
      PairOk(|atoms|, p, q);
      var c := [-p, q];
      Emit(c);
      LaterTrans(old(Now()), mid, Now());
      assert extra[|extra| - 1] == [-p, q];
    }

    /** i != j: the read below. */
    method EmitUntouched(key: Key, n: Name, m: Name, p: int, ghost x: Term)
      requires Valid() && key in selId && selId[key] == n && key.0.Store? && (key.0.below, key.1) in selId
          && selId[(key.0.below, key.1)] == m
      requires Rewrite(selId, key.0.at) == Option.Some(x) && AtomIs(atoms, p, x, key.1)
      modifies this`atoms, this`atomId, this`extra
      ensures Valid() && Later(old(Now()), Now()) && HasUntouched(Now(), key, p)
    {
      hide Valid, Lowerable, Rewrite, Grown;
      LowerableVar(n);
      LowerableVar(m);
      var r := Atom(Term.Var(n), Term.Var(m));
      ghost var mid := Now();
      AtomIsLater(old(atoms), atoms, p, x, key.1);
      assert Untouched(selId, atoms, key, p, r);
      AtomIndex(atoms, p, x, key.1);
      PairOk(|atoms|, p, r);
      Emit([p, r]);
      LaterTrans(old(Now()), mid, Now());
      assert extra[|extra| - 1] == [p, r];
    }

    /** Equal indices give equal reads: a clause for every earlier read of the variable. */
    method Congruence(x: Name, jj: Term, n: Name)
      requires Valid() && (Base(x), jj) in selId && selId[(Base(x), jj)] == n
      modifies this`atoms, this`atomId, this`extra
      ensures Valid() && Later(old(Now()), Now())
      ensures forall e | e in ReadsOf(seen, x) :: HasCongruent(Now(), (Base(x), jj), (Base(x), e.0))
    {
      hide Valid, Lowerable, Grown, HasCongruent;
      var earlier := ReadsOf(seen, x);
      var key := (Base(x), jj);
      LaterRefl(Now());
      ReadLowerable(x, jj);
      LowerableVar(n);
      var i := 0;
      while i < |earlier|
        invariant i <= |earlier| && Valid() && Later(old(Now()), Now())
        invariant forall k | 0 <= k < i :: HasCongruent(Now(), key, (Base(x), earlier[k].0))
      {
        ghost var before := Now();
        ReadSeen(x, i);
        ReadLowerable(x, earlier[i].0);
        LowerableVar(earlier[i].1);
        var p := Atom(jj, earlier[i].0);
        ghost var mid := Now();
        var q := Atom(Term.Var(n), Term.Var(earlier[i].1));
        ghost var now := Now();
        AtomIsLater(mid.atoms, atoms, p, jj, earlier[i].0);
        AtomIndex(atoms, p, jj, earlier[i].0);
        assert Congruent(selId, atoms, key, (Base(x), earlier[i].0), p, q);
        PairOk(|atoms|, p, q);
        var c := [-p, q];
        Emit(c);
        assert extra[|extra| - 1] == c;
        CongruentFound(Now(), key, (Base(x), earlier[i].0), p, q);
        LaterTrans(before, mid, now);
        LaterTrans(before, now, Now());
        LaterTrans(old(Now()), before, Now());
        forall k | 0 <= k < i ensures HasCongruent(Now(), key, (Base(x), earlier[k].0)) {
          CongruentKept(before, Now(), key, (Base(x), earlier[k].0));
        }
        i := i + 1;
      }
    }

    lemma ReadLowerable(x: Name, jj: Term)
      requires Valid() && (Base(x), jj) in selId
      ensures Lowerable(jj)
    {
    }

    lemma ReadSeen(x: Name, k: nat)
      requires Valid() && k < |ReadsOf(seen, x)|
      ensures (Base(x), ReadsOf(seen, x)[k].0) in selId
          && selId[(Base(x), ReadsOf(seen, x)[k].0)] == ReadsOf(seen, x)[k].1
    {
    }

    /** The read of an array variable is done: congruence clauses, and it joins the list. */
    method FinishBase(x: Name, jj: Term, n: Name)
      requires Valid() && (Base(x), jj) in selId && selId[(Base(x), jj)] == n
      modifies this`atoms, this`atomId, this`extra, this`seen, this`pending
      ensures Valid() && Later(old(Now()), Now()) && pending == old(pending) - {(Base(x), jj)}
    {
      hide Sound, AtomIdOk, ReadsOk, Lowerable, Grown, HasCongruent;
      Congruence(x, jj, n);
      BaseDone(Now(), seen, pending, user, x, jj);
      ReadsAdd(selId, seen, pending, x, jj);
      seen := seen[x := ReadsOf(seen, x) + [(jj, n)]];
      pending := pending - {(Base(x), jj)};
    }

    /** elim: the term without reads. */
    method Elim(t: Term) returns (r: Term)
      requires Valid() && Proper(t) && Words(t) <= user && ReadsIn(t) <= wanted
      modifies this
      ensures Valid() && Later(old(Now()), Now()) && pending == old(pending)
      ensures Rewrite(selId, t) == Option.Some(r)
      decreases t, 1
    {
      hide Valid, Rewrite, Grown, Later;
      LaterRefl(Now());
      match t
      case Var(_) =>
        LeafRewritten(selId, t);
        r := t;
      case Const(_) =>
        LeafRewritten(selId, t);
        r := t;
      case Neg(a) =>
        var x := Elim(a);
        OneRewritten(selId, a, x);
        r := Neg(x);
      case Sub(a, b) =>
        var x := Elim(a);
        ghost var mid := Now();
        var y := Elim(b);
        RewriteLater(mid, Now(), a);
        TwoRewritten(selId, a, x, b, y);
        LaterTrans(old(Now()), mid, Now());
        r := Sub(x, y);
      case Mul(a, b) =>
        var x := Elim(a);
        ghost var mid := Now();
        var y := Elim(b);
        RewriteLater(mid, Now(), a);
        TwoRewritten(selId, a, x, b, y);
        LaterTrans(old(Now()), mid, Now());
        r := Mul(x, y);
      case Add(ts) =>
        var xs := ElimAll(t);
        ArgsRewritten(selId, ts, xs);
        r := Add(xs);
      case Select(a, i) =>
        var jj := Elim(i);
        ghost var mid := Now();
        IndexOk(i, jj);
        var n := ElimSelect(a, jj, i);
        SelectRewritten(mid, Now(), a, i, jj);
        LaterTrans(old(Now()), mid, Now());
        r := Term.Var(n);
    }

    method ElimAll(t: Term) returns (xs: seq<Term>)
      requires t.Add? && Valid() && Proper(t) && Words(t) <= user && ReadsIn(t) <= wanted
      modifies this
      ensures Valid() && Later(old(Now()), Now()) && pending == old(pending)
      ensures |xs| == |t.terms| && forall k | 0 <= k < |xs| :: Rewrite(selId, t.terms[k]) == Option.Some(xs[k])
      decreases t, 0
    {
      hide Valid, Rewrite, Grown, Later;
      LaterRefl(Now());
      xs := [];
      while |xs| < |t.terms|
        invariant |xs| <= |t.terms| && Valid() && Later(old(Now()), Now()) && pending == old(pending)
        invariant forall k | 0 <= k < |xs| :: Rewrite(selId, t.terms[k]) == Option.Some(xs[k])
      {
        ghost var mid := Now();
        SummandOk(t, |xs|);
        var x := Elim(t.terms[|xs|]);
        LaterTrans(old(Now()), mid, Now());
        forall k | 0 <= k < |xs| ensures Rewrite(selId, t.terms[k]) == Option.Some(xs[k]) {
          RewriteLater(mid, Now(), t.terms[k]);
        }
        xs := xs + [x];
      }
    }

    lemma SummandOk(t: Term, k: nat)
      requires t.Add? && Proper(t) && Words(t) <= user && ReadsIn(t) <= wanted && k < |t.terms|
      ensures Proper(t.terms[k]) && Words(t.terms[k]) <= user && ReadsIn(t.terms[k]) <= wanted
    {
    }

    lemma IndexOk(i: Term, jj: Term)
      requires Valid() && Proper(i) && Words(i) <= user && Rewrite(selId, i) == Option.Some(jj)
      ensures Lowerable(jj) && Words(jj) <= Known(user, |keys|)
    {
      Rewritten(selId, keys, atoms, extra, pending, user, i, jj);
    }

    /** The index and the stored value of a write, and the clause for i = j. */
    method StoreWrite(b: Arr, jj: Term, n: Name) returns (p: int, ghost x: Term)
      requires Valid() && b.Store? && ProperArr(b) && ArrWords(b) <= user && Lowerable(jj) && ArrReads(b) <= wanted
      requires (b, jj) in selId && selId[(b, jj)] == n
      modifies this
      ensures Valid() && Later(old(Now()), Now()) && pending == old(pending)
      ensures Rewrite(selId, b.at) == Option.Some(x) && AtomIs(atoms, p, x, jj) && HasOverwritten(Now(), (b, jj), p)
      decreases b, 0
    {
      hide Valid, Rewrite, Later, Words, ArrWords, Known, Lowerable, Proper, ProperArr, HasOverwritten, AtomIs;
      StoreParts(b);
      var first := Elim(b.at);
      x := first;
      ghost var a := Now();
      IndexOk(b.at, x);
      p := Atom(first, jj);
      ghost var c := Now();
      var y := Elim(b.stored);
      ghost var d := Now();
      IndexOk(b.stored, y);
      LaterTrans(a, c, d);
      RewriteLater(a, d, b.at);
      AtomLater(c, d, p, x, jj);
      LaterTrans(old(Now()), a, d);
      KeyLater(old(Now()), d, (b, jj));
      EmitOverwritten((b, jj), n, p, first, y);
      AtomLater(d, Now(), p, x, jj);
      LaterTrans(old(Now()), d, Now());
    }

    lemma Finished()
      requires Valid() && pending == {}
      ensures Sound(selId, keys, atoms, extra, {}, user) && FromReads(selId, wanted)
    {
    }

    lemma Distinct()
      requires Valid()
      ensures forall j, k | 0 <= j < k < |atoms| :: atoms[j] != atoms[k] && atoms[j] != Eq(atoms[k].t2, atoms[k].t1)
    {
      forall j, k | 0 <= j < k < |atoms| ensures atoms[j] != atoms[k] && atoms[j] != Eq(atoms[k].t2, atoms[k].t1) {
        AtomsDistinct(atoms, atomId, j, k);
      }
    }

    lemma StoreParts(b: Arr)
      requires b.Store? && ProperArr(b) && ArrWords(b) <= user && ArrReads(b) <= wanted
      ensures ReadsIn(b.at) <= wanted && ReadsIn(b.stored) <= wanted && ArrReads(b.below) <= wanted
      ensures Proper(b.at) && Words(b.at) <= user && Proper(b.stored) && Words(b.stored) <= user
      ensures ProperArr(b.below) && ArrWords(b.below) <= user
    {
    }

    /** The write's clauses are there. */
    method FinishStore(key: Key, p: int, ghost before: Tables)
      requires Valid() && key.0.Store? && HasOverwritten(before, key, p) && Later(before, Now())
          && HasUntouched(Now(), key, p)
      modifies this`pending
      ensures Valid() && pending == old(pending) - {key}
    {
      hide Sound, AtomIdOk, HasOverwritten, HasUntouched, Later;
      StoreHas(before, Now(), key, p);
      SoundStore(selId, keys, atoms, extra, pending, user, key);
      pending := pending - {key};
    }

    lemma NotPending(key: Key)
      requires Valid() && key !in selId
      ensures key !in pending
    {
    }

    /** elim on a read whose index is done: its name, made up on first sight. */
    method ElimSelect(b: Arr, jj: Term, ghost i: Term) returns (n: Name)
      requires ReadsAt(b, i) <= wanted && ArrReads(b) <= wanted && Rewrite(selId, i) == Option.Some(jj)
      requires Valid() && ProperArr(b) && ArrWords(b) <= user && Lowerable(jj) && Words(jj) <= Known(user, |keys|)
      modifies this
      ensures Valid() && Later(old(Now()), Now()) && pending == old(pending)
      ensures (b, jj) in selId && selId[(b, jj)] == n
      decreases b, 1
    {
      hide Valid, Rewrite, Later, Words, ArrWords, Known, Lowerable, Proper, ProperArr, HasOverwritten, HasUntouched,
          AtomIs, ReadsAt,
        ArrReads;
      LaterRefl(Now());
      var key := (b, jj);
      if key in selId {
        return selId[key];
      }
      NotPending(key);
      ReadsBelow(b, i);
      n := NewRead(b, jj, i);
      ghost var a := Now();
      match b
      case Base(x) =>
        FinishBase(x, jj, n);
        KeyLater(a, Now(), key);
        LaterTrans(old(Now()), a, Now());
      case Store(below, _, _) =>
        StoreParts(b);
        ghost var x;
        var p;
        p, x := StoreWrite(b, jj, n);
        ghost var c := Now();
        LaterTrans(old(Now()), a, c);
        LaterKnown(old(Now()), c, user, jj);
        RewriteLater(old(Now()), c, i);
        var m := ElimSelect(below, jj, i);
        ghost var d := Now();
        RewriteLater(c, d, b.at);
        AtomLater(c, d, p, x, jj);
        LaterTrans(a, c, d);
        KeyLater(a, d, key);
        EmitUntouched(key, n, m, p, x);
        LaterTrans(c, d, Now());
        FinishStore(key, p, c);
        LaterTrans(a, c, Now());
        KeyLater(a, Now(), key);
        LaterTrans(old(Now()), a, Now());
    }
  }
}

/** The elimination itself: tables filled as terms are rewritten. */
module Arrays {
  import opened Sat
  import opened Circuit
  import opened Terms
  import opened BitBlast
  import opened ArraySpec

  /** No empty sums anywhere. */
  predicate Proper(t: Term)
    decreases t
  {
    match t
    case Var(_) => true
    case Const(_) => true
    case Neg(a) => Proper(a)
    case Add(ts) => ts != [] && forall k | 0 <= k < |ts| :: Proper(ts[k])
    case Sub(a, b) => Proper(a) && Proper(b)
    case Mul(a, b) => Proper(a) && Proper(b)
    case Select(a, i) => ProperArr(a) && Proper(i)
  }

  predicate ProperArr(a: Arr)
    decreases a
  {
    match a
    case Base(_) => true
    case Store(b, i, s) => ProperArr(b) && Proper(i) && Proper(s)
  }

  // ---- what the tables keep --------------------------------------------------------------

  ghost predicate Sound(table: Table, keys: seq<Key>, atoms: seq<Eq>, extra: seq<seq<int>>, pending: set<Key>,
      user: set<Name>) {
    && Ordered(table, keys, user) && (forall key | key in table :: Lowerable(key.1))
    && (forall k | 0 <= k < |atoms| :: AtomOk(atoms[k]))
    && OnlyAxioms(table, atoms, extra) && Closed(table, atoms, extra, pending)
    && forall k | 0 <= k < |extra| :: ClauseOk(|atoms|, extra[k])
  }

  lemma AtomIsLater(atoms: seq<Eq>, atoms': seq<Eq>, p: int, a: Term, b: Term)
    requires AtomIs(atoms, p, a, b) && atoms <= atoms'
    ensures AtomIs(atoms', p, a, b)
  {
    assert atoms'[p - 1] == atoms[p - 1];
  }

  lemma OverwrittenLater(table: Table, atoms: seq<Eq>, table': Table, atoms': seq<Eq>, key: Key, p: int, q: int)
    requires Overwritten(table, atoms, key, p, q) && Grown(table, table') && atoms <= atoms'
    ensures Overwritten(table', atoms', key, p, q)
  {
    RewriteGrown(table, table', key.0.at);
    RewriteGrown(table, table', key.0.stored);
    hide Rewrite, AtomIs;
    AtomIsLater(atoms, atoms', p, Rewrite(table, key.0.at).value, key.1);
    AtomIsLater(atoms, atoms', q, Var(table[key]), Rewrite(table, key.0.stored).value);
  }

  lemma UntouchedLater(table: Table, atoms: seq<Eq>, table': Table, atoms': seq<Eq>, key: Key, p: int, q: int)
    requires Untouched(table, atoms, key, p, q) && Grown(table, table') && atoms <= atoms'
    ensures Untouched(table', atoms', key, p, q)
  {
    RewriteGrown(table, table', key.0.at);
    hide Rewrite, AtomIs;
    AtomIsLater(atoms, atoms', p, Rewrite(table, key.0.at).value, key.1);
    AtomIsLater(atoms, atoms', q, Var(table[key]), Var(table[(key.0.below, key.1)]));
  }

  lemma CongruentLater(table: Table, atoms: seq<Eq>, table': Table, atoms': seq<Eq>, key: Key, other: Key, p: int,
      q: int)
    requires Congruent(table, atoms, key, other, p, q) && Grown(table, table') && atoms <= atoms'
    ensures Congruent(table', atoms', key, other, p, q)
  {
    hide AtomIs;
    AtomIsLater(atoms, atoms', p, key.1, other.1);
    AtomIsLater(atoms, atoms', q, Var(table[key]), Var(table[other]));
  }

  lemma IsAxiomLater(table: Table, atoms: seq<Eq>, table': Table, atoms': seq<Eq>, c: seq<int>)
    requires IsAxiom(table, atoms, c) && Grown(table, table') && atoms <= atoms'
    ensures IsAxiom(table', atoms', c)
  {
    hide Overwritten, Untouched, Congruent, Grown;
    if exists key, p, q :: Overwritten(table, atoms, key, p, q) && c == [-p, q] {
      var key, p, q :| Overwritten(table, atoms, key, p, q) && c == [-p, q];
      OverwrittenLater(table, atoms, table', atoms', key, p, q);
    } else if exists key, p, q :: Untouched(table, atoms, key, p, q) && c == [p, q] {
      var key, p, q :| Untouched(table, atoms, key, p, q) && c == [p, q];
      UntouchedLater(table, atoms, table', atoms', key, p, q);
    } else {
      var key, other, p, q :| Congruent(table, atoms, key, other, p, q) && c == [-p, q];
      CongruentLater(table, atoms, table', atoms', key, other, p, q);
    }
  }

  lemma StoreAxiomsLater(table: Table, atoms: seq<Eq>, extra: seq<seq<int>>, table': Table, atoms': seq<Eq>,
      extra': seq<seq<int>>, key: Key)
    requires StoreAxioms(table, atoms, extra, key) && Grown(table, table') && atoms <= atoms'
        && forall c | c in extra :: c in extra'
    ensures StoreAxioms(table', atoms', extra', key)
  {
    hide Overwritten, Untouched, Grown;
    var p, q, r :| Overwritten(table, atoms, key, p, q) && Untouched(table, atoms, key, p, r) && [-p, q] in extra
        && [p, r] in extra;
    OverwrittenLater(table, atoms, table', atoms', key, p, q);
    UntouchedLater(table, atoms, table', atoms', key, p, r);
  }

  lemma BaseAxiomLater(table: Table, atoms: seq<Eq>, extra: seq<seq<int>>, table': Table, atoms': seq<Eq>,
      extra': seq<seq<int>>,
                       key: Key, other: Key)
    requires BaseAxiom(table, atoms, extra, key, other) && Grown(table, table') && atoms <= atoms'
        && forall c | c in extra :: c in extra'
    ensures BaseAxiom(table', atoms', extra', key, other)
  {
    hide Congruent, Grown;
    var p, q :| Congruent(table, atoms, key, other, p, q) && [-p, q] in extra;
    CongruentLater(table, atoms, table', atoms', key, other, p, q);
  }

  /** Closed survives growth, when the keys that are new are pending. */
  lemma ClosedLater(table: Table, atoms: seq<Eq>, extra: seq<seq<int>>, pending: set<Key>,
                    table': Table, atoms': seq<Eq>, extra': seq<seq<int>>, pending': set<Key>)
    requires Closed(table, atoms, extra, pending) && Grown(table, table') && atoms <= atoms'
        && (forall c | c in extra :: c in extra')
    requires pending <= pending' && forall key | key in table' && key !in table :: key in pending'
    ensures Closed(table', atoms', extra', pending')
  {
    hide StoreAxioms, BaseAxiom, Grown;
    forall key | key in table' && key.0.Store? && key !in pending' ensures StoreAxioms(table', atoms', extra', key) {
      StoreAxiomsLater(table, atoms, extra, table', atoms', extra', key);
    }
    forall key, other | key in table' && other in table' && key.0.Base? && other.0 == key.0 && key != other
        && key !in pending' && other !in pending'
      ensures BaseAxiom(table', atoms', extra', key, other) || BaseAxiom(table', atoms', extra', other, key)
    {
      if BaseAxiom(table, atoms, extra, key, other) {
        BaseAxiomLater(table, atoms, extra, table', atoms', extra', key, other);
      } else {
        BaseAxiomLater(table, atoms, extra, table', atoms', extra', other, key);
      }
    }
  }

  lemma GrownRefl(table: Table)
    ensures Grown(table, table)
  {
  }

  /** A new atom. */
  lemma SoundAtom(table: Table, keys: seq<Key>, atoms: seq<Eq>, extra: seq<seq<int>>, pending: set<Key>,
      user: set<Name>, a: Eq)
    requires Sound(table, keys, atoms, extra, pending, user) && AtomOk(a)
    ensures Sound(table, keys, atoms + [a], extra, pending, user)
  {
    hide IsAxiom, Closed, Ordered, AtomOk, Lowerable;
    GrownRefl(table);
    ClosedLater(table, atoms, extra, pending, table, atoms + [a], extra, pending);
    forall c | c in extra ensures IsAxiom(table, atoms + [a], c) {
      IsAxiomLater(table, atoms, table, atoms + [a], c);
    }
    forall k | 0 <= k < |extra| ensures ClauseOk(|atoms + [a]|, extra[k]) {
      assert ClauseOk(|atoms|, extra[k]);
    }
  }

  /** A new axiom. */
  lemma SoundAxiom(table: Table, keys: seq<Key>, atoms: seq<Eq>, extra: seq<seq<int>>, pending: set<Key>,
      user: set<Name>, c: seq<int>)
    requires Sound(table, keys, atoms, extra, pending, user) && IsAxiom(table, atoms, c) && ClauseOk(|atoms|, c)
    ensures Sound(table, keys, atoms, extra + [c], pending, user)
  {
    hide IsAxiom, Closed, Ordered, AtomOk, Lowerable;
    GrownRefl(table);
    ClosedLater(table, atoms, extra, pending, table, atoms, extra + [c], pending);
    forall d | d in extra + [c] ensures IsAxiom(table, atoms, d) {
      assert d in extra || d == c;
    }
  }

  /** A new read, its axioms to come. */
  lemma SoundKey(table: Table, keys: seq<Key>, atoms: seq<Eq>, extra: seq<seq<int>>, pending: set<Key>,
      user: set<Name>, key: Key)
    requires Sound(table, keys, atoms, extra, pending, user) && key !in table && Lowerable(key.1)
    requires ArrWords(key.0) <= user && Words(key.1) <= Known(user, |keys|)
    ensures Sound(table[key := SelName(|keys| + 1)], keys + [key], atoms, extra, pending + {key}, user)
    ensures Grown(table, table[key := SelName(|keys| + 1)])
  {
    hide IsAxiom, Closed, AtomOk, Lowerable, Words, ArrWords, Known, SelName;
    var table' := table[key := SelName(|keys| + 1)];
    ClosedLater(table, atoms, extra, pending, table', atoms, extra, pending + {key});
    forall c | c in extra ensures IsAxiom(table', atoms, c) {
      IsAxiomLater(table, atoms, table', atoms, c);
    }
    var keys' := keys + [key];
    forall x | x in table' ensures x in keys' {
      if x == key { assert keys'[|keys|] == key; }
    }
    assert Ordered(table', keys', user);
  }

  /** A store's axioms are there. */
  lemma SoundStore(table: Table, keys: seq<Key>, atoms: seq<Eq>, extra: seq<seq<int>>, pending: set<Key>,
      user: set<Name>, key: Key)
    requires Sound(table, keys, atoms, extra, pending, user) && key.0.Store? && StoreAxioms(table, atoms, extra, key)
    ensures Sound(table, keys, atoms, extra, pending - {key}, user)
  {
    hide IsAxiom, Ordered, AtomOk, Lowerable, StoreAxioms, BaseAxiom;
  }

  /** A base read's congruence clauses are there. */
  lemma SoundBase(table: Table, keys: seq<Key>, atoms: seq<Eq>, extra: seq<seq<int>>, pending: set<Key>,
      user: set<Name>, key: Key)
    requires Sound(table, keys, atoms, extra, pending, user) && key.0.Base?
    requires forall other | other in table && other.0 == key.0 && other != key && other !in pending - {key} ::
      BaseAxiom(table, atoms, extra, key, other)
    ensures Sound(table, keys, atoms, extra, pending - {key}, user)
  {
    hide IsAxiom, Ordered, AtomOk, Lowerable, StoreAxioms, BaseAxiom;
  }

  // ---- rewritten terms --------------------------------------------------------------------------

  lemma {:induction false} RewriteLowerable(table: Table, t: Term)
    requires Proper(t) && Rewrite(table, t).Some?
    ensures Lowerable(Rewrite(table, t).value)
    decreases t
  {
    match t
    case Neg(a) => RewriteLowerable(table, a);
    case Add(ts) =>
      forall k | 0 <= k < |ts| ensures Rewrite(table, ts[k]).Some? && Lowerable(Rewrite(table, ts[k]).value) {
        RewriteLowerable(table, ts[k]);
      }
    case Sub(a, b) =>
      RewriteLowerable(table, a);
      RewriteLowerable(table, b);
    case Mul(a, b) =>
      RewriteLowerable(table, a);
      RewriteLowerable(table, b);
    case Select(_, _) =>
    case Var(_) =>
    case Const(_) =>
  }

  lemma {:induction false} RewriteWords(table: Table, keys: seq<Key>, user: set<Name>, t: Term)
    requires Ordered(table, keys, user) && Rewrite(table, t).Some? && Words(t) <= user
    ensures Words(Rewrite(table, t).value) <= Known(user, |keys|)
    decreases t
  {
    match t
    case Neg(a) => RewriteWords(table, keys, user, a);
    case Add(ts) =>
      forall k | 0 <= k < |ts|
          ensures Rewrite(table, ts[k]).Some? && Words(Rewrite(table, ts[k]).value) <= Known(user, |keys|) {
        assert Words(ts[k]) <= Words(t);
        RewriteWords(table, keys, user, ts[k]);
      }
    case Sub(a, b) =>
      RewriteWords(table, keys, user, a);
      RewriteWords(table, keys, user, b);
    case Mul(a, b) =>
      RewriteWords(table, keys, user, a);
      RewriteWords(table, keys, user, b);
    case Select(a, i) =>
      var key := (a, Rewrite(table, i).value);
      assert key in keys;
      var k :| 0 <= k < |keys| && keys[k] == key;
      assert table[keys[k]] == SelName(k + 1);
    case Var(_) =>
    case Const(_) =>
  }
}

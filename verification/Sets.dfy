/** Small facts about finite sets. */
module Sets {

  lemma EmptyOrNot<T>(s: set<T>)
    ensures s == {} || exists x :: x in s
  {
    if !(exists x :: x in s) {
      assert s == {};
    }
  }

  ghost function Pick<T>(s: set<T>): (x: T)
    requires s != {}
    ensures x in s
  {
    EmptyOrNot(s);
    var x :| x in s; x
  }

  /** An element of `s` that is not in `t`. */
  ghost function PickBeyond<T>(s: set<T>, t: set<T>): (x: T)
    requires !(s <= t)
    ensures x in s && x !in t
  {
    EmptyOrNot(s - t);
    assert s - t == {} ==> forall x | x in s :: x in t by {
      assert forall x | x in s && x !in s - t :: x in t;
    }
    var x :| x in s && x !in t; x
  }

  lemma Fewer<T>(a: set<T>, b: set<T>)
    requires a <= b
    ensures |a| <= |b|
  {
    assert b == a + (b - a);
  }
}

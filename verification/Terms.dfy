/** Word-level terms over bit-vector arithmetic and arrays, and their value mod 2^w. */
module Terms {
  import opened Circuit
  import opened Modular

  datatype Term =
    | Var(name: Name)
    | Const(val: int)
    | Neg(arg: Term)
    | Add(terms: seq<Term>)
    | Sub(left: Term, right: Term)
    | Mul(fst: Term, snd: Term)
    | Select(arr: Arr, idx: Term)

  /** An array: a variable, or another array with one entry overwritten. */
  datatype Arr =
    | Base(id: Name)
    | Store(below: Arr, at: Term, stored: Term)

  /** The atom (= t1 t2). */
  datatype Eq = Eq(t1: Term, t2: Term)

  /** Values for the word variables and the array variables. */
  datatype Valuation = Valuation(words: Name -> int, arrays: Name -> int -> int)

  function Val(t: Term, v: Valuation, w: nat): (n: int)
    ensures 0 <= n < Pow2(w)
    decreases t
  {
    match t
    case Var(x) => v.words(x) % Pow2(w)
    case Const(c) => c % Pow2(w)
    case Neg(a) => -Val(a, v, w) % Pow2(w)
    case Add(ts) => SumVal(t, |ts|, v, w) % Pow2(w)
    case Sub(a, b) => (Val(a, v, w) - Val(b, v, w)) % Pow2(w)
    case Mul(a, b) => (Val(a, v, w) * Val(b, v, w)) % Pow2(w)
    case Select(a, i) => Read(a, Val(i, v, w), v, w)
  }

  /** The first `k` summands. */
  function SumVal(t: Term, k: nat, v: Valuation, w: nat): int
    requires t.Add? && k <= |t.terms|
    decreases t, k
  {
    if k == 0 then 0 else SumVal(t, k - 1, v, w) + Val(t.terms[k - 1], v, w)
  }

  /** The array's entry at index `j`: the last write to that index, or the variable's. */
  function Read(a: Arr, j: int, v: Valuation, w: nat): (n: int)
    ensures 0 <= n < Pow2(w)
    decreases a
  {
    match a
    case Base(x) => v.arrays(x)(j) % Pow2(w)
    case Store(b, i, s) => if j == Val(i, v, w) then Val(s, v, w) else Read(b, j, v, w)
  }

  predicate Holds(a: Eq, v: Valuation, w: nat) {
    Val(a.t1, v, w) == Val(a.t2, v, w)
  }

  /** Arithmetic only. */
  predicate ArrayFree(t: Term)
    decreases t
  {
    match t
    case Var(_) => true
    case Const(_) => true
    case Neg(a) => ArrayFree(a)
    case Add(ts) => forall k | 0 <= k < |ts| :: ArrayFree(ts[k])
    case Sub(a, b) => ArrayFree(a) && ArrayFree(b)
    case Mul(a, b) => ArrayFree(a) && ArrayFree(b)
    case Select(_, _) => false
  }
}

/** Order-preserving sublists, the shape every `Array.prototype.filter` result has. */
module Seqs {

  /** `a` is obtained from `b` by deleting elements, keeping the order of the rest. */
  predicate Sublist<T(==)>(a: seq<T>, b: seq<T>)
    decreases |b|
  {
    if a == [] then true
    else if b == [] then false
    else if a[0] == b[0] then Sublist(a[1..], b[1..])
    else Sublist(a, b[1..])
  }

  /** A sublist of the tail of `b` is a sublist of `b`. */
  lemma {:induction false} SublistOfTail<T>(a: seq<T>, b: seq<T>)
    requires b != [] && Sublist(a, b[1..])
    ensures Sublist(a, b)
    decreases |b|, 0
  {
    if a != [] && a[0] == b[0] {
      SublistWithoutHead(a, b[1..]);
    }
  }

  /** Dropping the first element of a sublist leaves a sublist. */
  lemma {:induction false} SublistWithoutHead<T>(a: seq<T>, c: seq<T>)
    requires a != [] && Sublist(a, c)
    ensures Sublist(a[1..], c)
    decreases |c|, 1
  {
    if a[0] != c[0] {
      SublistWithoutHead(a, c[1..]);
    }
    SublistOfTail(a[1..], c);
  }
}

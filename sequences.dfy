/** Facts about sequences shared by the sync model and the client list. */
module Sequences {

  /** `xs` is `ys` with some elements left out and the others kept in their order. */
  predicate Subsequence<T(==)>(xs: seq<T>, ys: seq<T>)
    decreases |ys|
  {
    if xs == [] then true
    else if ys == [] then false
    else (xs[0] == ys[0] && Subsequence(xs[1..], ys[1..])) || Subsequence(xs, ys[1..])
  }

  /** Appending an element to the longer sequence keeps a subsequence, with or without that element. */
  lemma {:induction false} SubsequenceSnoc<T>(xs: seq<T>, ys: seq<T>, e: T)
    requires Subsequence(xs, ys)
    ensures Subsequence(xs, ys + [e])
    ensures Subsequence(xs + [e], ys + [e])
    decreases |ys|
  {
    if ys == [] {
      assert xs == [];
      assert ([] + [e])[1..] == [];
    } else {
      assert (ys + [e])[1..] == ys[1..] + [e];
      if xs == [] {
        SubsequenceSnoc(xs, ys[1..], e);
        assert xs + [e] == [e];
      } else {
        assert (xs + [e])[1..] == xs[1..] + [e];
        if xs[0] == ys[0] && Subsequence(xs[1..], ys[1..]) {
          SubsequenceSnoc(xs[1..], ys[1..], e);
        } else {
          SubsequenceSnoc(xs, ys[1..], e);
        }
      }
    }
  }
}

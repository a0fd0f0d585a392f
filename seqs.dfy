/** Regrouping of sequence concatenations, stated once for the loops that
    extend a result piece by piece. */
module Seqs {
  lemma AppendAssociative3<T>(a: seq<T>, b: seq<T>, c: seq<T>)
    ensures a + b + c == a + (b + c)
  {
  }

  lemma AppendAssociative<T>(a: seq<T>, b: seq<T>, c: seq<T>, d: seq<T>)
    ensures a + b + c + d == a + (b + c + d)
  {
  }

  /** A sequence computed element by element from `xs + [x]` is the one
      computed from `xs`, followed by the image of `x`. */
  lemma MapSnoc<A, B>(f: A -> B, xs: seq<A>, x: A, ys: seq<B>, zs: seq<B>)
    requires |ys| == |xs| + 1 && |zs| == |xs|
    requires forall i :: 0 <= i < |ys| ==> ys[i] == f((xs + [x])[i])
    requires forall i :: 0 <= i < |zs| ==> zs[i] == f(xs[i])
    ensures ys == zs + [f(x)]
  {
    forall i | 0 <= i < |ys| ensures ys[i] == (zs + [f(x)])[i] {
      if i < |xs| {
        assert (xs + [x])[i] == xs[i];
      } else {
        assert (xs + [x])[i] == x;
      }
    }
  }

  /** Extending a slice after a fixed prefix by one more element. */
  lemma AppendSliceStep<T>(a: seq<T>, b: seq<T>, j: nat)
    requires j < |b|
    ensures a + b[..j + 1] == (a + b[..j]) + [b[j]]
  {
    assert b[..j + 1] == b[..j] + [b[j]];
  }

}

/** Order-preserving selection from a sequence: `Array.prototype.filter`
    and the subsequence relation it establishes. */
module Seqs {
  /** `list.filter(keep)` */
  function Filter<T(==,!new)>(ps: seq<T>, keep: T -> bool): (r: seq<T>)
    ensures |r| <= |ps|
    ensures forall p :: p in r <==> p in ps && keep(p)
  {
    if ps == [] then []
    else (if keep(ps[0]) then [ps[0]] else []) + Filter(ps[1..], keep)
  }

  /** `a` is `b` with some elements left out, the others in their order. */
  predicate IsSubsequence<T(==,!new)>(a: seq<T>, b: seq<T>)
    decreases |b|
  {
    if b == [] then a == []
    else (a != [] && a[0] == b[0] && IsSubsequence(a[1..], b[1..])) || IsSubsequence(a, b[1..])
  }

  lemma {:induction false} FilterIsSubsequence<T(!new)>(ps: seq<T>, keep: T -> bool)
    ensures IsSubsequence(Filter(ps, keep), ps)
  {
    if ps != [] {
      FilterIsSubsequence(ps[1..], keep);
      var r := Filter(ps, keep);
      if keep(ps[0]) {
        assert r[0] == ps[0] && r[1..] == Filter(ps[1..], keep);
      } else {
        assert r == Filter(ps[1..], keep);
      }
    }
  }

  /** Filtering twice is filtering once by both conditions, `h`. */
  lemma {:induction false} FilterFilter<T(!new)>(ps: seq<T>, f: T -> bool, g: T -> bool, h: T -> bool)
    requires forall p :: p in ps ==> h(p) == (f(p) && g(p))
    ensures Filter(Filter(ps, f), g) == Filter(ps, h)
  {
    if ps != [] {
      FilterFilter(ps[1..], f, g, h);
      if f(ps[0]) {
        assert Filter(ps, f) == [ps[0]] + Filter(ps[1..], f);
        assert Filter(ps, f)[1..] == Filter(ps[1..], f);
      } else {
        assert Filter(ps, f) == Filter(ps[1..], f);
      }
    }
  }

  lemma {:induction false} IdentitySubsequence<T(!new)>(ps: seq<T>)
    ensures IsSubsequence(ps, ps)
  {
    if ps != [] {
      IdentitySubsequence(ps[1..]);
    }
  }

  /** Filtering a concatenation filters each part. */
  lemma {:induction false} FilterAppend<T(!new)>(a: seq<T>, b: seq<T>, keep: T -> bool)
    ensures Filter(a + b, keep) == Filter(a, keep) + Filter(b, keep)
  {
    if a == [] {
      assert a + b == b;
    } else {
      assert (a + b)[1..] == a[1..] + b;
      FilterAppend(a[1..], b, keep);
    }
  }

  /** `list.map(f)` */
  function Map<A, B>(s: seq<A>, f: A -> B): (r: seq<B>)
    ensures |r| == |s| && forall k :: 0 <= k < |s| ==> r[k] == f(s[k])
  {
    seq(|s|, k requires 0 <= k < |s| => f(s[k]))
  }

  /** Mapping one more element appends its image. */
  lemma MapSnoc<A, B>(s: seq<A>, f: A -> B, i: nat)
    requires i < |s|
    ensures Map(s[..i + 1], f) == Map(s[..i], f) + [f(s[i])]
  {
  }

  /** The image of a non-empty sequence: the first element's, then the
      rest's. */
  lemma MapCons<A, B>(s: seq<A>, f: A -> B)
    requires s != []
    ensures Map(s, f)[0] == f(s[0]) && Map(s, f)[1..] == Map(s[1..], f)
  {
  }
}

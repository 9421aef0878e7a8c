/** Order-preserving selection from a sequence, the shape of pandas' boolean
    row masks and of Python's `[x for x in xs if p(x)]`. */
module Seqs {

  /** The elements of `xs` that satisfy `p`, in their original order. */
  function Filter<T>(p: T -> bool, xs: seq<T>): (r: seq<T>)
    ensures |r| <= |xs|
    ensures forall k :: 0 <= k < |r| ==> p(r[k])
    ensures forall x :: x in r ==> x in xs
  {
    if xs == [] then []
    else (if p(xs[0]) then [xs[0]] else []) + Filter(p, xs[1..])
  }

  /** `[f(x) for x in xs]`. */
  function Map<T, U>(f: T -> U, xs: seq<T>): (r: seq<U>)
    ensures |r| == |xs|
    ensures forall k :: 0 <= k < |xs| ==> r[k] == f(xs[k])
  {
    seq(|xs|, k requires 0 <= k < |xs| => f(xs[k]))
  }

  /** The positions of `xs` whose elements satisfy `p`, ascending: an
      independent description of what `Filter` keeps. */
  function Kept<T>(p: T -> bool, xs: seq<T>): (ix: seq<nat>)
    ensures forall k :: 0 <= k < |ix| ==> ix[k] < |xs| && p(xs[ix[k]])
    ensures forall k, l :: 0 <= k < l < |ix| ==> ix[k] < ix[l]
    ensures forall i :: 0 <= i < |xs| && p(xs[i]) ==> i in ix
  {
    KeptFrom(p, xs, 0)
  }

  function KeptFrom<T>(p: T -> bool, xs: seq<T>, lo: nat): (ix: seq<nat>)
    requires lo <= |xs|
    ensures forall k :: 0 <= k < |ix| ==> lo <= ix[k] < |xs| && p(xs[ix[k]])
    ensures forall k, l :: 0 <= k < l < |ix| ==> ix[k] < ix[l]
    ensures forall i :: lo <= i < |xs| && p(xs[i]) ==> i in ix
    decreases |xs| - lo
  {
    if lo == |xs| then []
    else (if p(xs[lo]) then [lo] else []) + KeptFrom(p, xs, lo + 1)
  }

  /** `Filter` keeps exactly the elements at the `Kept` positions, in order:
      nothing satisfying `p` is dropped and nothing is reordered. */
  lemma {:induction false} FilterIsKept<T>(p: T -> bool, xs: seq<T>)
    ensures |Filter(p, xs)| == |Kept(p, xs)|
    ensures forall k :: 0 <= k < |Kept(p, xs)| ==> Filter(p, xs)[k] == xs[Kept(p, xs)[k]]
  {
    FilterFrom(p, xs, 0);
    assert xs[0..] == xs;
  }

  lemma {:induction false} FilterFrom<T>(p: T -> bool, xs: seq<T>, lo: nat)
    requires lo <= |xs|
    ensures |Filter(p, xs[lo..])| == |KeptFrom(p, xs, lo)|
    ensures forall k :: 0 <= k < |KeptFrom(p, xs, lo)| ==>
      Filter(p, xs[lo..])[k] == xs[KeptFrom(p, xs, lo)[k]]
    decreases |xs| - lo
  {
    if lo < |xs| {
      assert xs[lo..][1..] == xs[lo + 1..];
      assert xs[lo..][0] == xs[lo];
      FilterFrom(p, xs, lo + 1);
    }
  }

  /** Filtering a concatenation filters each part. */
  lemma {:induction false} FilterAppend<T>(p: T -> bool, a: seq<T>, b: seq<T>)
    ensures Filter(p, a + b) == Filter(p, a) + Filter(p, b)
    decreases |a|
  {
    if a == [] {
      assert a + b == b;
    } else {
      assert (a + b)[1..] == a[1..] + b;
      FilterAppend(p, a[1..], b);
    }
  }

  /** A sequence none of whose elements satisfies `p` filters to nothing,
      and one all of whose elements do is kept whole. */
  lemma {:induction false} FilterUniform<T>(p: T -> bool, xs: seq<T>)
    ensures (forall k :: 0 <= k < |xs| ==> !p(xs[k])) ==> Filter(p, xs) == []
    ensures (forall k :: 0 <= k < |xs| ==> p(xs[k])) ==> Filter(p, xs) == xs
    decreases |xs|
  {
    if xs != [] {
      FilterUniform(p, xs[1..]);
      assert forall k :: 1 <= k < |xs| ==> xs[1..][k - 1] == xs[k];
    }
  }
}

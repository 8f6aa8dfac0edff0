/**
  Sequence operations the JavaScript source leans on: `Array.prototype.filter`,
  `Array.prototype.map` and `Array.prototype.indexOf`, together with the two
  order relations used to state what a filter keeps: subsequence and
  interleaving.
 */
module Seqs {

  /** `a` can be obtained from `b` by deleting elements; the rest keep their order. */
  predicate IsSubseq<T(==)>(a: seq<T>, b: seq<T>)
    decreases |b|
  {
    if |a| == 0 then true
    else if |b| == 0 then false
    else (a[0] == b[0] && IsSubseq(a[1..], b[1..])) || IsSubseq(a, b[1..])
  }

  /** `c` is a merge of `a` and `b`: every element of `c` is taken, in order,
      from the front of exactly one of them, and both are used up. */
  predicate Interleaving<T(==)>(c: seq<T>, a: seq<T>, b: seq<T>)
    decreases |c|
  {
    if |c| == 0 then |a| == 0 && |b| == 0
    else
      || (|a| > 0 && a[0] == c[0] && Interleaving(c[1..], a[1..], b))
      || (|b| > 0 && b[0] == c[0] && Interleaving(c[1..], a, b[1..]))
  }

  /** `Array.prototype.filter`: the elements of `s` that satisfy `p`, in order. */
  function Filter<T(==,!new)>(s: seq<T>, p: T -> bool): (r: seq<T>)
    ensures |r| <= |s|
    ensures forall x :: x in r ==> x in s && p(x)
    ensures forall i :: 0 <= i < |s| && p(s[i]) ==> s[i] in r
    ensures forall x :: multiset(r)[x] == if p(x) then multiset(s)[x] else 0
    ensures IsSubseq(r, s)
  {
    if |s| == 0 then []
    else
      assert s == [s[0]] + s[1..];
      if p(s[0]) then [s[0]] + Filter(s[1..], p) else Filter(s[1..], p)
  }

  /** `Array.prototype.map`. */
  function Map<A, B>(s: seq<A>, f: A -> B): (r: seq<B>)
    ensures |r| == |s|
    ensures forall k :: 0 <= k < |s| ==> r[k] == f(s[k])
  {
    if |s| == 0 then [] else [f(s[0])] + Map(s[1..], f)
  }

  /** `Array.prototype.indexOf`: the first position of `x` in `s`, or -1. */
  function IndexOf<T(==)>(s: seq<T>, x: T): (r: int)
    ensures -1 <= r < |s|
    ensures r == -1 <==> x !in s
    ensures 0 <= r ==> s[r] == x && x !in s[..r]
  {
    if |s| == 0 then -1
    else if s[0] == x then 0
    else
      var k := IndexOf(s[1..], x);
      if k == -1 then -1
      else
        assert s[..k + 1] == [s[0]] + s[1..][..k];
        k + 1
  }

  /** A filter whose predicate keeps everything is the identity. */
  lemma {:induction false} FilterKeepsAll<T(!new)>(s: seq<T>, p: T -> bool)
    requires forall i :: 0 <= i < |s| ==> p(s[i])
    ensures Filter(s, p) == s
  {
    if |s| > 0 {
      FilterKeepsAll(s[1..], p);
    }
  }

  /** Filtering by a predicate and by its negation splits `s` into two
      sequences that merge back into `s`. */
  lemma {:induction false} FilterSplit<T(!new)>(s: seq<T>, p: T -> bool, q: T -> bool)
    requires forall i :: 0 <= i < |s| ==> q(s[i]) == !p(s[i])
    ensures Interleaving(s, Filter(s, p), Filter(s, q))
  {
    if |s| > 0 {
      FilterSplit(s[1..], p, q);
    }
  }

  /** A merge accounts for every element of both parts and of nothing else. */
  lemma {:induction false} InterleavingCounts<T>(c: seq<T>, a: seq<T>, b: seq<T>)
    requires Interleaving(c, a, b)
    ensures |a| + |b| == |c|
    ensures multiset(a) + multiset(b) == multiset(c)
    decreases |c|
  {
    if |c| > 0 {
      assert c == [c[0]] + c[1..];
      if |a| > 0 && a[0] == c[0] && Interleaving(c[1..], a[1..], b) {
        InterleavingCounts(c[1..], a[1..], b);
        assert a == [a[0]] + a[1..];
      } else {
        InterleavingCounts(c[1..], a, b[1..]);
        assert b == [b[0]] + b[1..];
      }
    }
  }

  /** Mapping a merge maps its two parts: the images merge in the same way. */
  lemma {:induction false} MapInterleaving<A, B>(c: seq<A>, a: seq<A>, b: seq<A>, f: A -> B)
    requires Interleaving(c, a, b)
    ensures Interleaving(Map(c, f), Map(a, f), Map(b, f))
    decreases |c|
  {
    if |c| > 0 {
      assert Map(c, f)[1..] == Map(c[1..], f);
      if |a| > 0 && a[0] == c[0] && Interleaving(c[1..], a[1..], b) {
        MapInterleaving(c[1..], a[1..], b, f);
        assert Map(a, f)[1..] == Map(a[1..], f);
      } else {
        MapInterleaving(c[1..], a, b[1..], f);
        assert Map(b, f)[1..] == Map(b[1..], f);
      }
    }
  }

  /** Every element of a subsequence occurs in the whole. */
  lemma {:induction false} SubseqMembers<T>(a: seq<T>, b: seq<T>)
    requires IsSubseq(a, b)
    ensures forall x :: x in a ==> x in b
    decreases |b|
  {
    if |a| > 0 {
      if a[0] == b[0] && IsSubseq(a[1..], b[1..]) {
        SubseqMembers(a[1..], b[1..]);
        assert a == [a[0]] + a[1..];
      } else {
        SubseqMembers(a, b[1..]);
      }
    }
  }
}

/** `Array.prototype.filter` over immutable sequences, and the facts every list view relies on. */
module Seqs {

  /** The elements of `s` that satisfy `p`, in their original order. */
  function Filter<T>(s: seq<T>, p: T -> bool): (r: seq<T>)
    ensures |r| <= |s|
    ensures forall i :: 0 <= i < |r| ==> p(r[i]) && r[i] in s
    ensures forall i :: 0 <= i < |s| && p(s[i]) ==> s[i] in r
  {
    if |s| == 0 then []
    else if p(s[0]) then [s[0]] + Filter(s[1..], p)
    else Filter(s[1..], p)
  }

  /** The complement of a predicate. */
  function Not<T>(p: T -> bool): T -> bool {
    x => !p(x)
  }

  /** `a` can be obtained from `b` by deleting elements (order preserved). */
  ghost predicate IsSubsequence<T>(a: seq<T>, b: seq<T>) {
    if |a| == 0 then true
    else if |b| == 0 then false
    else if a[0] == b[0] then IsSubsequence(a[1..], b[1..])
    else IsSubsequence(a, b[1..])
  }

  /** Every sequence is a subsequence of `x` prepended to itself. */
  lemma {:induction false} SubsequenceCons<T>(a: seq<T>, x: T, b: seq<T>)
    requires IsSubsequence(a, b)
    ensures IsSubsequence(a, [x] + b)
    decreases |a| + |b|, 2
  {
    var xb := [x] + b;
    assert xb[1..] == b;
    if |a| == 0 {
    } else if a[0] == x {
      // greedy matching takes x; the rest of a is still a subsequence of b
      SubsequenceTail(a, b);
    } else {
    }
  }

  /** Dropping the head of `a` keeps it a subsequence. */
  lemma {:induction false} SubsequenceTail<T>(a: seq<T>, b: seq<T>)
    requires |a| > 0 && IsSubsequence(a, b)
    ensures IsSubsequence(a[1..], b)
    decreases |a| + |b|, 1
  {
    assert |b| > 0;
    if a[0] == b[0] {
      SubsequenceCons(a[1..], b[0], b[1..]);
      assert [b[0]] + b[1..] == b;
    } else {
      SubsequenceTail(a, b[1..]);
      SubsequenceCons(a[1..], b[0], b[1..]);
      assert [b[0]] + b[1..] == b;
    }
  }

  /** A filtered list is a subsequence of the list: nothing is invented or reordered. */
  lemma {:induction false} FilterIsSubsequence<T>(s: seq<T>, p: T -> bool)
    ensures IsSubsequence(Filter(s, p), s)
  {
    if |s| == 0 {
    } else {
      FilterIsSubsequence(s[1..], p);
      var r := Filter(s[1..], p);
      if p(s[0]) {
        assert ([s[0]] + r)[1..] == r;
      } else {
        SubsequenceCons(r, s[0], s[1..]);
        assert [s[0]] + s[1..] == s;
      }
    }
  }

  /** Filtering twice by the same predicate is filtering once. */
  lemma {:induction false} FilterIdempotent<T>(s: seq<T>, p: T -> bool)
    ensures Filter(Filter(s, p), p) == Filter(s, p)
  {
    if |s| > 0 {
      FilterIdempotent(s[1..], p);
      if p(s[0]) {
        var r := Filter(s[1..], p);
        assert ([s[0]] + r)[1..] == r;
      }
    }
  }

  /** `p` and its complement split the list: every element lands in exactly one side. */
  lemma FilterPartition<T>(s: seq<T>, p: T -> bool)
    ensures multiset(Filter(s, p)) + multiset(Filter(s, Not(p))) == multiset(s)
    ensures |Filter(s, p)| + |Filter(s, Not(p))| == |s|
  {
    FilterPartitionMultiset(s, p);
    assert |multiset(Filter(s, p)) + multiset(Filter(s, Not(p)))| == |multiset(s)|;
  }

  lemma {:induction false} FilterPartitionMultiset<T>(s: seq<T>, p: T -> bool)
    ensures multiset(Filter(s, p)) + multiset(Filter(s, Not(p))) == multiset(s)
  {
    if |s| > 0 {
      var t := s[1..];
      FilterPartitionMultiset(t, p);
      assert [s[0]] + t == s;
      var a, b := Filter(t, p), Filter(t, Not(p));
      if p(s[0]) {
        assert Filter(s, p) == [s[0]] + a;
        assert Filter(s, Not(p)) == b;
        assert multiset([s[0]] + a) == multiset([s[0]]) + multiset(a);
      } else {
        assert Filter(s, p) == a;
        assert Filter(s, Not(p)) == [s[0]] + b;
        assert multiset([s[0]] + b) == multiset([s[0]]) + multiset(b);
      }
      assert multiset(s) == multiset([s[0]]) + multiset(t);
    }
  }

  /** A predicate every element satisfies leaves the list unchanged. */
  lemma {:induction false} FilterAll<T>(s: seq<T>, p: T -> bool)
    requires forall i :: 0 <= i < |s| ==> p(s[i])
    ensures Filter(s, p) == s
  {
    if |s| > 0 {
      FilterAll(s[1..], p);
      assert [s[0]] + s[1..] == s;
    }
  }

  /** Number of elements of `s` that satisfy `p`. */
  function Count<T>(s: seq<T>, p: T -> bool): nat {
    if |s| == 0 then 0 else (if p(s[0]) then 1 else 0) + Count(s[1..], p)
  }

  /** The filter keeps exactly as many elements as satisfy the predicate. */
  lemma {:induction false} FilterCount<T>(s: seq<T>, p: T -> bool)
    ensures |Filter(s, p)| == Count(s, p)
  {
    if |s| > 0 {
      FilterCount(s[1..], p);
    }
  }

  /** Dropping a last element the predicate rejects does not change the filter. */
  lemma {:induction false} FilterDropLast<T>(s: seq<T>, p: T -> bool)
    requires |s| > 0 && !p(s[|s| - 1])
    ensures Filter(s[..|s| - 1], p) == Filter(s, p)
    decreases |s|
  {
    var t := s[..|s| - 1];
    if |s| == 1 {
      assert t == [];
    } else {
      FilterDropLast(s[1..], p);
      assert t[1..] == s[1..][..|s| - 2];
      assert t[0] == s[0];
    }
  }
}

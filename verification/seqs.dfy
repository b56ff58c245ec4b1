/** Sequence helpers shared by the scanner model: an order-preserving
    filter, an element-wise map, and the subsequence relation the filter is
    judged by. */
module Seqs {

  /** `idx` lists, in increasing order, the positions of `b` that hold the
      elements of `a`. */
  ghost predicate Embeds<T>(a: seq<T>, b: seq<T>, idx: seq<nat>)
  {
    && |idx| == |a|
    && (forall k :: 0 <= k < |idx| ==> idx[k] < |b| && a[k] == b[idx[k]])
    && (forall k, l :: 0 <= k < l < |idx| ==> idx[k] < idx[l])
  }

  /** `a` is obtained from `b` by deleting elements, keeping the rest in order. */
  ghost predicate IsSubsequence<T>(a: seq<T>, b: seq<T>)
  {
    exists idx :: Embeds(a, b, idx)
  }

  /** The keys strictly increase along `s`. */
  ghost predicate StrictlyIncreasing<T>(s: seq<T>, key: T -> int)
  {
    forall i, j :: 0 <= i < j < |s| ==> key(s[i]) < key(s[j])
  }

  /** The elements of `s` that satisfy `keep`, in their original order; the
      shape of a Python loop that appends each accepted element. */
  function Filter<T>(s: seq<T>, keep: T -> bool): (r: seq<T>)
    ensures |r| <= |s|
    ensures forall i :: 0 <= i < |r| ==> keep(r[i])
  {
    if |s| == 0 then []
    else
      var init, last := s[..|s| - 1], s[|s| - 1];
      assert s == init + [last];
      Filter(init, keep) + (if keep(last) then [last] else [])
  }

  /** `f` applied to every element, in order (Python's `map`, whose results
      come back in input order). */
  function Map<T, U>(f: T -> U, s: seq<T>): seq<U>
  {
    seq(|s|, i requires 0 <= i < |s| => f(s[i]))
  }

  /** The filter holds exactly the elements of `s` that `keep` accepts. */
  lemma {:induction false} FilterMembers<T>(s: seq<T>, keep: T -> bool)
    ensures forall x :: x in Filter(s, keep) <==> x in s && keep(x)
  {
    if |s| > 0 {
      var init, last := s[..|s| - 1], s[|s| - 1];
      FilterMembers(init, keep);
      assert s == init + [last];
    }
  }

  /** Every element of the filter is an element of the input. */
  lemma FilterElementFrom<T>(s: seq<T>, keep: T -> bool, i: nat)
    requires i < |Filter(s, keep)|
    ensures Filter(s, keep)[i] in s
  {
  }

  /** Every accepted element of the input is kept. */
  lemma FilterKeepsAccepted<T>(s: seq<T>, keep: T -> bool, j: nat)
    requires j < |s|
    ensures keep(s[j]) ==> s[j] in Filter(s, keep)
  {
  }

  lemma FilterIsSubsequence<T>(s: seq<T>, keep: T -> bool)
    ensures IsSubsequence(Filter(s, keep), s)
  {
    var idx := FilterPositions(s, keep);
  }

  /** The positions of `s` that `Filter` keeps. */
  lemma {:induction false} FilterPositions<T>(s: seq<T>, keep: T -> bool) returns (idx: seq<nat>)
    ensures Embeds(Filter(s, keep), s, idx)
    ensures forall k :: 0 <= k < |idx| ==> idx[k] < |s|
  {
    if |s| == 0 {
      idx := [];
    } else {
      var init, last := s[..|s| - 1], s[|s| - 1];
      var prev := FilterPositions(init, keep);
      if keep(last) {
        idx := prev + [|s| - 1];
      } else {
        idx := prev;
      }
    }
  }

  /** Filtering never reorders: a strictly increasing input stays strictly
      increasing. */
  lemma {:induction false} FilterKeepsOrder<T>(s: seq<T>, keep: T -> bool, key: T -> int)
    requires StrictlyIncreasing(s, key)
    ensures StrictlyIncreasing(Filter(s, keep), key)
  {
    if |s| > 0 {
      var init, last := s[..|s| - 1], s[|s| - 1];
      assert StrictlyIncreasing(init, key);
      FilterKeepsOrder(init, keep, key);
      var r, f := Filter(s, keep), Filter(init, keep);
      if keep(last) {
        forall i | 0 <= i < |f|
          ensures key(f[i]) < key(last)
        {
          FilterElementFrom(init, keep, i);
          var m :| 0 <= m < |init| && init[m] == f[i];
          assert s[m] == init[m];
        }
        assert r == f + [last];
      }
    }
  }

  /** The filter keeps every copy of an accepted value and no copy of a
      rejected one. */
  lemma {:induction false} FilterCount<T>(s: seq<T>, keep: T -> bool, x: T)
    ensures multiset(Filter(s, keep))[x] == if keep(x) then multiset(s)[x] else 0
  {
    if |s| > 0 {
      var init, last := s[..|s| - 1], s[|s| - 1];
      FilterCount(init, keep, x);
      assert s == init + [last];
    }
  }

  /** Elements at positions m..n-1 that are all rejected do not change the
      filtered prefix. */
  lemma {:induction false} FilterSkipsRejected<T>(s: seq<T>, keep: T -> bool, m: nat, n: nat)
    requires m <= n <= |s|
    requires forall i :: m <= i < n ==> !keep(s[i])
    ensures Filter(s[..n], keep) == Filter(s[..m], keep)
    decreases n
  {
    if m < n {
      assert s[..n][..n - 1] == s[..n - 1];
      FilterSkipsRejected(s, keep, m, n - 1);
    }
  }

  /** Appending one more element of `s` to the filtered prefix. */
  lemma FilterStep<T>(s: seq<T>, keep: T -> bool, n: nat)
    requires n < |s|
    ensures Filter(s[..n + 1], keep) == Filter(s[..n], keep) + (if keep(s[n]) then [s[n]] else [])
  {
    assert s[..n + 1][..n] == s[..n];
  }

  /** A filter that rejects every element leaves nothing. */
  lemma {:induction false} FilterRejectsAll<T>(s: seq<T>, keep: T -> bool)
    requires forall i :: 0 <= i < |s| ==> !keep(s[i])
    ensures Filter(s, keep) == []
  {
    if |s| > 0 {
      FilterRejectsAll(s[..|s| - 1], keep);
    }
  }

  /** Filtering depends only on how `keep` judges the elements present. */
  lemma {:induction false} FilterCongruent<T>(s: seq<T>, keep1: T -> bool, keep2: T -> bool)
    requires forall i :: 0 <= i < |s| ==> keep1(s[i]) == keep2(s[i])
    ensures Filter(s, keep1) == Filter(s, keep2)
  {
    if |s| > 0 {
      FilterCongruent(s[..|s| - 1], keep1, keep2);
    }
  }
}

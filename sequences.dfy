/**
 * `Array.prototype.filter` as a function on sequences, and the facts about it
 * that the movie filter is built from: it keeps a subsequence, it keeps exactly
 * the elements that pass, and two filters in a row are one filter.
 */
module Sequences {

  /** `a` is `b` with some elements dropped and the rest in their original order. */
  predicate IsSubsequence<T(==)>(a: seq<T>, b: seq<T>)
    decreases |b|
  {
    if b == [] then a == []
    else IsSubsequence(a, b[1..]) || (a != [] && a[0] == b[0] && IsSubsequence(a[1..], b[1..]))
  }

  /** `s.filter(p)`: the elements of `s` that pass `p`, in their order in `s`. */
  function Select<T>(s: seq<T>, p: T -> bool): (r: seq<T>)
    ensures |r| <= |s|
    ensures forall i :: 0 <= i < |r| ==> p(r[i])
  {
    if s == [] then []
    else if p(s[0]) then [s[0]] + Select(s[1..], p)
    else Select(s[1..], p)
  }

  /** `s.map(f)`. */
  function Map<T, U>(s: seq<T>, f: T -> U): (r: seq<U>)
    ensures |r| == |s|
    ensures forall i :: 0 <= i < |s| ==> r[i] == f(s[i])
  {
    if s == [] then [] else [f(s[0])] + Map(s[1..], f)
  }

  lemma {:induction false} SubsequenceReflexive<T>(s: seq<T>)
    decreases |s|
    ensures IsSubsequence(s, s)
  {
    if s != [] {
      SubsequenceReflexive(s[1..]);
    }
  }

  /** A subsequence is no longer than the sequence it is taken from. */
  lemma {:induction false} SubsequenceLength<T>(a: seq<T>, b: seq<T>)
    requires IsSubsequence(a, b)
    decreases |b|
    ensures |a| <= |b|
  {
    if b != [] {
      if IsSubsequence(a, b[1..]) {
        SubsequenceLength(a, b[1..]);
      } else {
        SubsequenceLength(a[1..], b[1..]);
      }
    }
  }

  lemma {:induction false} SubsequenceTransitive<T>(a: seq<T>, b: seq<T>, c: seq<T>)
    requires IsSubsequence(a, b) && IsSubsequence(b, c)
    decreases |c|
    ensures IsSubsequence(a, c)
  {
    if c != [] {
      if IsSubsequence(b, c[1..]) {
        SubsequenceTransitive(a, b, c[1..]);
      } else if IsSubsequence(a, b[1..]) {
        SubsequenceTransitive(a, b[1..], c[1..]);
      } else {
        SubsequenceTransitive(a[1..], b[1..], c[1..]);
      }
    }
  }

  /** What `filter` returns is a subsequence of its input: nothing added, order kept. */
  lemma {:induction false} SelectIsSubsequence<T>(s: seq<T>, p: T -> bool)
    decreases |s|
    ensures IsSubsequence(Select(s, p), s)
  {
    if s != [] {
      SelectIsSubsequence(s[1..], p);
      if p(s[0]) {
        assert Select(s, p)[1..] == Select(s[1..], p);
      }
    }
  }

  /** An element is in the result of `filter` exactly when it is in the input and passes. */
  lemma {:induction false} SelectMember<T>(s: seq<T>, p: T -> bool, x: T)
    decreases |s|
    ensures x in Select(s, p) <==> x in s && p(x)
  {
    if s != [] {
      SelectMember(s[1..], p, x);
      assert s == [s[0]] + s[1..];
    }
  }

  /** When every element passes, `filter` returns its input unchanged. */
  lemma {:induction false} SelectAllPass<T>(s: seq<T>, p: T -> bool)
    requires forall i :: 0 <= i < |s| ==> p(s[i])
    decreases |s|
    ensures Select(s, p) == s
  {
    if s != [] {
      SelectAllPass(s[1..], p);
    }
  }

  /** Two tests that agree on every element of `s` select the same elements. */
  lemma {:induction false} SelectCongruent<T>(s: seq<T>, p: T -> bool, q: T -> bool)
    requires forall i :: 0 <= i < |s| ==> p(s[i]) == q(s[i])
    decreases |s|
    ensures Select(s, p) == Select(s, q)
  {
    if s != [] {
      SelectCongruent(s[1..], p, q);
    }
  }

  /** Filtering by `p` and then by `q` is filtering once by their conjunction `r`. */
  lemma {:induction false} SelectFuse<T>(s: seq<T>, p: T -> bool, q: T -> bool, r: T -> bool)
    requires forall i :: 0 <= i < |s| ==> r(s[i]) == (p(s[i]) && q(s[i]))
    decreases |s|
    ensures Select(Select(s, p), q) == Select(s, r)
  {
    if s != [] {
      SelectFuse(s[1..], p, q, r);
    }
  }

  /** Filtering a second time by the same test changes nothing. */
  lemma SelectIdempotent<T>(s: seq<T>, p: T -> bool)
    ensures Select(Select(s, p), p) == Select(s, p)
  {
  }

  /** Filtering preserves the subsequence order: a smaller input gives a smaller result. */
  lemma {:induction false} SelectMonotone<T>(a: seq<T>, b: seq<T>, p: T -> bool)
    requires IsSubsequence(a, b)
    decreases |b|
    ensures IsSubsequence(Select(a, p), Select(b, p))
  {
    if b == [] {
    } else if IsSubsequence(a, b[1..]) {
      SelectMonotone(a, b[1..], p);
      if p(b[0]) {
        SelectIsSubsequence(b[1..], p);
        assert Select(b, p)[1..] == Select(b[1..], p);
      }
    } else {
      SelectMonotone(a[1..], b[1..], p);
      if p(b[0]) {
        assert Select(a, p)[1..] == Select(a[1..], p);
        assert Select(b, p)[1..] == Select(b[1..], p);
      }
    }
  }

  /**
   * Renaming the elements with `f` commutes with filtering, when the test `q` on
   * a renamed element gives what `p` gives on the original.
   */
  lemma {:induction false} SelectMap<T, U>(s: seq<T>, f: T -> U, p: T -> bool, q: U -> bool)
    requires forall i :: 0 <= i < |s| ==> q(f(s[i])) == p(s[i])
    decreases |s|
    ensures Select(Map(s, f), q) == Map(Select(s, p), f)
  {
    if s != [] {
      SelectMap(s[1..], f, p, q);
      assert Map(s, f)[1..] == Map(s[1..], f);
    }
  }
}

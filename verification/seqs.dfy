/**
 * Order-preserving filtering of sequences (JavaScript's `Array.prototype.filter`)
 * and the subsequence relation it establishes.
 */
module Seqs {

  /** `a` can be obtained from `b` by deleting elements, keeping the order of the rest. */
  ghost predicate IsSubsequence<T>(a: seq<T>, b: seq<T>)
    decreases |b|
  {
    if |b| == 0 then |a| == 0
    else (|a| > 0 && a[0] == b[0] && IsSubsequence(a[1..], b[1..])) || IsSubsequence(a, b[1..])
  }

  /** The elements of `s` on which `keep` holds, in their original order. */
  function Keep<T(==,!new)>(s: seq<T>, keep: T -> bool): (r: seq<T>)
    ensures |r| <= |s|
    ensures forall x :: x in r ==> keep(x)
    ensures forall i :: 0 <= i < |s| && keep(s[i]) ==> s[i] in r
    ensures forall x :: multiset(r)[x] == if keep(x) then multiset(s)[x] else 0
  {
    if |s| == 0 then []
    else
      assert s == [s[0]] + s[1..];
      if keep(s[0]) then [s[0]] + Keep(s[1..], keep) else Keep(s[1..], keep)
  }

  lemma {:induction false} EmptyIsSubsequence<T>(b: seq<T>)
    ensures IsSubsequence([], b)
    decreases |b|
  {
    if |b| > 0 {
      EmptyIsSubsequence(b[1..]);
    }
  }

  lemma {:induction false} KeepIsSubsequence<T(!new)>(s: seq<T>, keep: T -> bool)
    ensures IsSubsequence(Keep(s, keep), s)
    decreases |s|
  {
    if |s| > 0 {
      KeepIsSubsequence(s[1..], keep);
      if keep(s[0]) {
        var r := Keep(s, keep);
        assert r[0] == s[0] && r[1..] == Keep(s[1..], keep);
      }
    }
  }

  /** Every prefix of a subsequence of `b` is again a subsequence of `b`. */
  lemma {:induction false} PrefixOfSubsequence<T>(a: seq<T>, b: seq<T>, n: nat)
    requires IsSubsequence(a, b)
    requires n <= |a|
    ensures IsSubsequence(a[..n], b)
    decreases |b|
  {
    if n == 0 {
      EmptyIsSubsequence(b);
    } else if |a| > 0 && a[0] == b[0] && IsSubsequence(a[1..], b[1..]) {
      PrefixOfSubsequence(a[1..], b[1..], n - 1);
      assert a[..n][1..] == a[1..][..n - 1];
    } else {
      PrefixOfSubsequence(a, b[1..], n);
    }
  }

  /** Filtering by a test every element passes changes nothing. */
  lemma {:induction false} KeepAll<T(!new)>(s: seq<T>, keep: T -> bool)
    requires forall i :: 0 <= i < |s| ==> keep(s[i])
    ensures Keep(s, keep) == s
    decreases |s|
  {
    if |s| > 0 {
      KeepAll(s[1..], keep);
      assert s == [s[0]] + s[1..];
    }
  }

  /** Filtering twice by the same test is filtering once. */
  lemma KeepIdempotent<T(!new)>(s: seq<T>, keep: T -> bool)
    ensures Keep(Keep(s, keep), keep) == Keep(s, keep)
  {
    var r := Keep(s, keep);
    assert forall i :: 0 <= i < |r| ==> r[i] in r;
    KeepAll(r, keep);
  }

  lemma AppendAssociative<T>(a: seq<T>, b: seq<T>, c: seq<T>)
    ensures a + (b + c) == (a + b) + c
  {
  }

  /** Filtering a sequence with a known first element decides that element, then filters the rest. */
  lemma KeepCons<T(!new)>(a: T, u: seq<T>, keep: T -> bool)
    ensures Keep([a] + u, keep) == (if keep(a) then [a] else []) + Keep(u, keep)
  {
    var t := [a] + u;
    assert t[0] == a && t[1..] == u;
  }

  /** Filtering distributes over appending one element at the end. */
  lemma {:induction false} KeepAppend<T(!new)>(s: seq<T>, x: T, keep: T -> bool)
    ensures Keep(s + [x], keep) == Keep(s, keep) + (if keep(x) then [x] else [])
    decreases |s|
  {
    if |s| == 0 {
      assert s + [x] == [x] + [];
      KeepCons(x, [], keep);
    } else {
      var u := s[1..];
      assert s + [x] == [s[0]] + (u + [x]);
      assert s == [s[0]] + u;
      KeepCons(s[0], u + [x], keep);
      KeepCons(s[0], u, keep);
      KeepAppend(u, x, keep);
      var head := if keep(s[0]) then [s[0]] else [];
      var tail := if keep(x) then [x] else [];
      AppendAssociative(head, Keep(u, keep), tail);
    }
  }

  /** Two tests that agree on every element of `s` select the same elements. */
  lemma {:induction false} KeepCongruent<T(!new)>(s: seq<T>, f: T -> bool, g: T -> bool)
    requires forall i :: 0 <= i < |s| ==> f(s[i]) == g(s[i])
    ensures Keep(s, f) == Keep(s, g)
    decreases |s|
  {
    if |s| > 0 {
      KeepCongruent(s[1..], f, g);
    }
  }
}

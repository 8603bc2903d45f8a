/** Sequence operations behind the frontend's `Array.prototype.filter` and
    `new Set(...)` spreads, with the facts the views rely on. */
module Seqs {

  /** `s.filter(p)`: the elements satisfying `p`, in their original order. */
  function Filter<T>(s: seq<T>, p: T -> bool): (r: seq<T>)
    ensures |r| <= |s|
  {
    if s == [] then [] else (if p(s[0]) then [s[0]] else []) + Filter(s[1..], p)
  }

  /** `a` can be obtained from `b` by deleting elements. */
  predicate IsSubseq<T(==)>(a: seq<T>, b: seq<T>) {
    if a == [] then true
    else if b == [] then false
    else if a[0] == b[0] then IsSubseq(a[1..], b[1..])
    else IsSubseq(a, b[1..])
  }

  predicate NoDuplicates<T(==)>(s: seq<T>) {
    forall i, j :: 0 <= i < j < |s| ==> s[i] != s[j]
  }

  // ---------------------------------------------------------------------
  // Subsequences

  lemma {:induction false} SubseqDropFirst<T>(a: seq<T>, b: seq<T>)
    requires a != [] && IsSubseq(a, b)
    ensures IsSubseq(a[1..], b)
    decreases |b|, 0
  {
    if a[0] != b[0] {
      SubseqDropFirst(a, b[1..]);
      SubseqConsRight(a[1..], b[1..], b[0]);
      assert b == [b[0]] + b[1..];
    } else {
      SubseqConsRight(a[1..], b[1..], b[0]);
      assert b == [b[0]] + b[1..];
    }
  }

  /** Adding an element in front of the larger sequence keeps a subsequence. */
  lemma {:induction false} SubseqConsRight<T>(a: seq<T>, b: seq<T>, x: T)
    requires IsSubseq(a, b)
    ensures IsSubseq(a, [x] + b)
    decreases |b|, 1
  {
    if a != [] && a[0] == x {
      assert ([x] + b)[1..] == b;
      SubseqDropFirst(a, b);
    } else if a != [] {
      assert ([x] + b)[1..] == b;
    }
  }

  // ---------------------------------------------------------------------
  // Filter

  lemma {:induction false} FilterIsSubseq<T>(s: seq<T>, p: T -> bool)
    ensures IsSubseq(Filter(s, p), s)
  {
    if s != [] {
      FilterIsSubseq(s[1..], p);
      var rest := Filter(s[1..], p);
      if p(s[0]) {
        assert Filter(s, p) == [s[0]] + rest;
        assert ([s[0]] + rest)[1..] == rest;
      } else {
        assert Filter(s, p) == rest;
        SubseqConsRight(rest, s[1..], s[0]);
        assert s == [s[0]] + s[1..];
      }
    }
  }

  /** Filter keeps exactly the satisfying elements, with their multiplicities. */
  lemma {:induction false} FilterCount<T>(s: seq<T>, p: T -> bool, x: T)
    ensures multiset(Filter(s, p))[x] == if p(x) then multiset(s)[x] else 0
  {
    if s != [] {
      FilterCount(s[1..], p, x);
      assert s == [s[0]] + s[1..];
      assert multiset(s) == multiset([s[0]]) + multiset(s[1..]);
    }
  }

  lemma FilterMembership<T>(s: seq<T>, p: T -> bool, x: T)
    ensures x in Filter(s, p) <==> x in s && p(x)
  {
    FilterCount(s, p, x);
    assert x in Filter(s, p) <==> x in multiset(Filter(s, p));
    assert x in s <==> x in multiset(s);
  }

  /** A filter whose predicate holds everywhere on `s` returns `s`. */
  lemma {:induction false} FilterAll<T>(s: seq<T>, p: T -> bool)
    requires forall k :: 0 <= k < |s| ==> p(s[k])
    ensures Filter(s, p) == s
  {
    if s != [] {
      FilterAll(s[1..], p);
      assert s == [s[0]] + s[1..];
    }
  }

  /** A filter whose predicate holds nowhere on `s` returns nothing. */
  lemma {:induction false} FilterNone<T>(s: seq<T>, p: T -> bool)
    requires forall k :: 0 <= k < |s| ==> !p(s[k])
    ensures Filter(s, p) == []
  {
    if s != [] {
      FilterNone(s[1..], p);
    }
  }

  /** A stronger predicate selects a subsequence of what a weaker one selects. */
  lemma {:induction false} FilterStronger<T>(s: seq<T>, p: T -> bool, q: T -> bool)
    requires forall k :: 0 <= k < |s| ==> q(s[k]) ==> p(s[k])
    ensures IsSubseq(Filter(s, q), Filter(s, p))
  {
    if s != [] {
      FilterStronger(s[1..], p, q);
      var fq, fp := Filter(s[1..], q), Filter(s[1..], p);
      if q(s[0]) {
        assert Filter(s, q) == [s[0]] + fq && Filter(s, p) == [s[0]] + fp;
        assert ([s[0]] + fq)[1..] == fq && ([s[0]] + fp)[1..] == fp;
      } else if p(s[0]) {
        assert Filter(s, q) == fq && Filter(s, p) == [s[0]] + fp;
        SubseqConsRight(fq, fp, s[0]);
      } else {
        assert Filter(s, q) == fq && Filter(s, p) == fp;
      }
    }
  }

  // ---------------------------------------------------------------------
  // First occurrences

  /** Index of the first occurrence of `x` in `s`. */
  function FirstIndex<T(==)>(s: seq<T>, x: T): (k: nat)
    requires x in s
    ensures k < |s| && s[k] == x && x !in s[..k]
  {
    if s[0] == x then 0 else 1 + FirstIndex(s[1..], x)
  }

  lemma FirstIndexInPrefix<T>(s: seq<T>, m: nat, x: T)
    requires m <= |s| && x in s[..m]
    ensures FirstIndex(s, x) == FirstIndex(s[..m], x)
  {
    var k, k' := FirstIndex(s, x), FirstIndex(s[..m], x);
    assert s[..m][..k'] == s[..k'];
  }

  /** `[...new Set(s)]`: each distinct element once, in first-seen order. */
  function Distinct<T(==)>(s: seq<T>): (r: seq<T>)
    ensures forall k :: 0 <= k < |s| ==> s[k] in r
    ensures forall k :: 0 <= k < |r| ==> r[k] in s
    ensures NoDuplicates(r)
  {
    if s == [] then []
    else
      var seen := Distinct(s[..|s| - 1]);
      assert s == s[..|s| - 1] + [s[|s| - 1]];
      if s[|s| - 1] in seen then seen else seen + [s[|s| - 1]]
  }

  /** The order of `Distinct` is the order in which elements are first seen. */
  lemma {:induction false} DistinctFirstSeen<T>(s: seq<T>)
    ensures forall i, j :: 0 <= i < j < |Distinct(s)| ==>
      FirstIndex(s, Distinct(s)[i]) < FirstIndex(s, Distinct(s)[j])
  {
    if s != [] {
      var init, x := s[..|s| - 1], s[|s| - 1];
      DistinctFirstSeen(init);
      var seen := Distinct(init);
      assert s == init + [x];
      forall i | 0 <= i < |seen| ensures FirstIndex(s, seen[i]) == FirstIndex(init, seen[i]) {
        FirstIndexInPrefix(s, |s| - 1, seen[i]);
      }
      if x !in seen {
        assert x !in init;
        assert FirstIndex(s, x) == |s| - 1;
      }
    }
  }

  /** A non-empty sequence of one repeated element has that element as its
      only distinct one. */
  lemma {:induction false} DistinctConstant<T>(s: seq<T>, x: T)
    requires |s| > 0 && forall k :: 0 <= k < |s| ==> s[k] == x
    ensures Distinct(s) == [x]
  {
    if |s| > 1 {
      DistinctConstant(s[..|s| - 1], x);
    }
  }
}

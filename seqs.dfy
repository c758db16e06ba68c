/**
 * Sequence facts the query pipeline is stated with: Python's list comprehension
 * `[x for x in s if p(x)]` (Filter), order-preserving sublists (IsSubsequence)
 * and lists without repeated elements (Distinct).
 */
module Seqs {

  /** `[x for x in s if p(x)]`, built front to back as the comprehension is. */
  function Filter<T>(s: seq<T>, p: T -> bool): (r: seq<T>)
    ensures |r| <= |s|
    ensures forall i :: 0 <= i < |r| ==> p(r[i])
    decreases |s|
  {
    if s == [] then []
    else Filter(s[..|s| - 1], p) + (if p(s[|s| - 1]) then [s[|s| - 1]] else [])
  }

  /** `a` is obtained from `b` by deleting elements, without reordering the rest. */
  predicate IsSubsequence<T(==)>(a: seq<T>, b: seq<T>)
    decreases |b|
  {
    if a == [] then true
    else if b == [] then false
    else if a[|a| - 1] == b[|b| - 1] then IsSubsequence(a[..|a| - 1], b[..|b| - 1])
    else IsSubsequence(a, b[..|b| - 1])
  }

  predicate Distinct<T(==)>(s: seq<T>) {
    forall i, j :: 0 <= i < j < |s| ==> s[i] != s[j]
  }

  lemma {:induction false} SubsequenceRefl<T>(s: seq<T>)
    ensures IsSubsequence(s, s)
    decreases |s|
  {
    if s != [] {
      SubsequenceRefl(s[..|s| - 1]);
    }
  }

  /** The filter keeps its input's order. */
  lemma {:induction false} FilterIsSubsequence<T>(s: seq<T>, p: T -> bool)
    ensures IsSubsequence(Filter(s, p), s)
    decreases |s|
  {
    if s != [] {
      var init := s[..|s| - 1];
      FilterIsSubsequence(init, p);
      if p(s[|s| - 1]) {
        var r := Filter(s, p);
        assert r[..|r| - 1] == Filter(init, p);
      } else {
        assert Filter(s, p) == Filter(init, p);
        SubsequenceOfInit(Filter(init, p), s);
      }
    }
  }

  /** A subsequence of the list without its last element is a subsequence of the list. */
  lemma {:induction false} SubsequenceOfInit<T>(a: seq<T>, s: seq<T>)
    requires s != [] && IsSubsequence(a, s[..|s| - 1])
    ensures IsSubsequence(a, s)
    decreases |s|, 0
  {
    if a != [] && a[|a| - 1] == s[|s| - 1] {
      var init := s[..|s| - 1];
      // a was matched inside init; drop the last element of both sides there.
      SubsequenceDropLast(a, init);
      assert s[..|s| - 1] == init;
    }
  }

  /** Deleting the last element of a subsequence leaves a subsequence of the list's front part. */
  lemma {:induction false} SubsequenceDropLast<T>(a: seq<T>, s: seq<T>)
    requires a != [] && IsSubsequence(a, s)
    ensures IsSubsequence(a[..|a| - 1], s)
    decreases |s|, 1
  {
    var init := s[..|s| - 1];
    if a[|a| - 1] == s[|s| - 1] {
      if a[..|a| - 1] != [] {
        SubsequenceOfInit(a[..|a| - 1], s);
      }
    } else {
      SubsequenceDropLast(a, init);
      if a[..|a| - 1] != [] {
        SubsequenceOfInit(a[..|a| - 1], s);
      }
    }
  }

  /** A sublist is no longer than the list, and all its elements come from the list. */
  lemma {:induction false} SubsequenceElements<T>(a: seq<T>, b: seq<T>)
    requires IsSubsequence(a, b)
    ensures |a| <= |b| && forall x :: x in a ==> x in b
    decreases |b|
  {
    if a != [] {
      var ib := b[..|b| - 1];
      assert b == ib + [b[|b| - 1]];
      if a[|a| - 1] == b[|b| - 1] {
        var ia := a[..|a| - 1];
        SubsequenceElements(ia, ib);
        assert a == ia + [a[|a| - 1]];
      } else {
        SubsequenceElements(a, ib);
      }
    }
  }

  /** A permutation has the same length and the same elements. */
  lemma PermutationMembers<T>(s: seq<T>, t: seq<T>)
    requires multiset(s) == multiset(t)
    ensures |t| == |s| && forall x :: x in t ==> x in s
  {
    assert |multiset(s)| == |s| && |multiset(t)| == |t|;
    forall x | x in t ensures x in s {
      assert x in multiset(t);
    }
  }

  /** Exactly the elements satisfying `p` are kept, each as often as it occurs in `s`. */
  lemma {:induction false} FilterCount<T>(s: seq<T>, p: T -> bool, x: T)
    ensures multiset(Filter(s, p))[x] == if p(x) then multiset(s)[x] else 0
    decreases |s|
  {
    if s != [] {
      var init, last := s[..|s| - 1], s[|s| - 1];
      FilterCount(init, p, x);
      assert s == init + [last];
    }
  }

  lemma FilterMembership<T>(s: seq<T>, p: T -> bool, x: T)
    ensures x in Filter(s, p) <==> x in s && p(x)
  {
    FilterCount(s, p, x);
    assert x in Filter(s, p) <==> multiset(Filter(s, p))[x] > 0;
  }

  /** A filter whose predicate holds everywhere keeps the whole list. */
  lemma {:induction false} FilterAll<T>(s: seq<T>, p: T -> bool)
    requires forall i :: 0 <= i < |s| ==> p(s[i])
    ensures Filter(s, p) == s
    decreases |s|
  {
    if s != [] {
      FilterAll(s[..|s| - 1], p);
    }
  }

  /** Two filters applied one after the other may be swapped. */
  lemma {:induction false} FilterCommute<T>(s: seq<T>, p: T -> bool, q: T -> bool)
    ensures Filter(Filter(s, p), q) == Filter(Filter(s, q), p)
    decreases |s|
  {
    if s != [] {
      var init, last := s[..|s| - 1], s[|s| - 1];
      FilterCommute(init, p, q);
      FilterAppendOne(Filter(init, p), last, q);
      FilterAppendOne(Filter(init, q), last, p);
      if p(last) {
        assert Filter(s, p) == Filter(init, p) + [last];
      } else {
        assert Filter(s, p) == Filter(init, p);
      }
      if q(last) {
        assert Filter(s, q) == Filter(init, q) + [last];
      } else {
        assert Filter(s, q) == Filter(init, q);
      }
    }
  }

  lemma FilterAppendOne<T>(s: seq<T>, x: T, p: T -> bool)
    ensures Filter(s + [x], p) == Filter(s, p) + (if p(x) then [x] else [])
  {
    assert (s + [x])[..|s + [x]| - 1] == s;
  }

  /** `[f(x) for x in s]`. */
  function Map<T, U>(s: seq<T>, f: T -> U): (r: seq<U>)
    ensures |r| == |s| && forall i :: 0 <= i < |s| ==> r[i] == f(s[i])
  {
    if s == [] then [] else [f(s[0])] + Map(s[1..], f)
  }

  lemma MapAppendOne<T, U>(s: seq<T>, x: T, f: T -> U)
    ensures Map(s + [x], f) == Map(s, f) + [f(x)]
  {
  }

  /** The lists `f(x)` for the elements `x` of `s`, concatenated in order. */
  function FlatMap<T, U>(s: seq<T>, f: T -> seq<U>): seq<U>
    decreases |s|
  {
    if s == [] then [] else FlatMap(s[..|s| - 1], f) + f(s[|s| - 1])
  }

  lemma {:induction false} FlatMapAppend<T, U>(s: seq<T>, t: seq<T>, f: T -> seq<U>)
    ensures FlatMap(s + t, f) == FlatMap(s, f) + FlatMap(t, f)
    decreases |t|
  {
    if t != [] {
      var init, last := t[..|t| - 1], t[|t| - 1];
      FlatMapAppend(s, init, f);
      assert (s + t)[..|s + t| - 1] == s + init && (s + t)[|s + t| - 1] == last;
      calc {
        FlatMap(s + t, f);
        FlatMap(s + init, f) + f(last);
        FlatMap(s, f) + FlatMap(init, f) + f(last);
        FlatMap(s, f) + (FlatMap(init, f) + f(last));
      }
    } else {
      assert s + t == s;
    }
  }

  /**
   * When `f(x)` is `[m(x)]` for the elements satisfying `p` and empty for the
   * others, concatenating the `f(x)` lists the `m` of the elements `p` keeps.
   */
  lemma {:induction false} FlatMapOfGuarded<T, U>(s: seq<T>, f: T -> seq<U>, p: T -> bool, m: T -> U)
    requires forall x :: f(x) == if p(x) then [m(x)] else []
    ensures FlatMap(s, f) == Map(Filter(s, p), m)
    decreases |s|
  {
    if s != [] {
      var init, last := s[..|s| - 1], s[|s| - 1];
      FlatMapOfGuarded(init, f, p, m);
      assert s == init + [last];
      FilterAppendOne(init, last, p);
      MapAppendOne(Filter(init, p), last, m);
    }
  }

  /** Distinct lists are those in which every element occurs at most once. */
  lemma {:induction false} DistinctIffCounts<T>(s: seq<T>)
    ensures Distinct(s) <==> forall x :: multiset(s)[x] <= 1
    decreases |s|
  {
    if s != [] {
      var init, last := s[..|s| - 1], s[|s| - 1];
      DistinctIffCounts(init);
      assert s == init + [last];
      if Distinct(s) {
        assert Distinct(init);
        assert forall k :: 0 <= k < |init| ==> init[k] == s[k] != s[|s| - 1];
        forall x ensures multiset(s)[x] <= 1 {
          assert multiset(s)[x] == multiset(init)[x] + (if x == last then 1 else 0);
        }
      } else {
        var i, j :| 0 <= i < j < |s| && s[i] == s[j];
        if j < |s| - 1 {
          assert init[i] == init[j];
          var x :| multiset(init)[x] > 1;
          assert multiset(s)[x] >= multiset(init)[x];
        } else {
          assert init[i] == last;
          assert multiset(s)[last] == multiset(init)[last] + 1;
        }
      }
    }
  }

  /** The set of a list's elements: Python's `set(s)`. */
  function Elements<T>(s: seq<T>): set<T> {
    set x | x in s
  }

  /** A list without repeated elements has as many elements as its set. */
  lemma {:induction false} DistinctCardinality<T>(s: seq<T>)
    requires Distinct(s)
    ensures |Elements(s)| == |s|
    decreases |s|
  {
    if s != [] {
      var init, last := s[..|s| - 1], s[|s| - 1];
      DistinctCardinality(init);
      assert Elements(s) == Elements(init) + {last};
      assert last !in Elements(init);
    }
  }

  /** A filter of a list without repeated elements has none either. */
  lemma FilterKeepsDistinct<T>(s: seq<T>, p: T -> bool)
    requires Distinct(s)
    ensures Distinct(Filter(s, p))
  {
    DistinctIffCounts(s);
    forall x ensures multiset(Filter(s, p))[x] <= 1 {
      FilterCount(s, p, x);
    }
    DistinctIffCounts(Filter(s, p));
  }

  /** Two lists with the same elements counted with multiplicity have the same elements. */
  lemma PermutationKeepsElements<T>(s: seq<T>, t: seq<T>)
    requires multiset(s) == multiset(t)
    ensures Elements(s) == Elements(t)
    ensures Distinct(s) ==> Distinct(t)
  {
    DistinctIffCounts(s);
    DistinctIffCounts(t);
    forall x ensures x in s <==> x in t {
      assert x in s <==> multiset(s)[x] > 0;
      assert x in t <==> multiset(t)[x] > 0;
    }
  }
}

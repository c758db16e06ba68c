/**
 * Python's `sorted(s, key=key, reverse=desc)`: a stable sort by one key. With
 * `reverse=True` Python reverses each comparison rather than the output, so
 * elements with equal keys keep their input order in both directions. The sort
 * here is an insertion sort. The contract of SortBy says its result is a sorted
 * permutation, SortByIsStable that it is stable, and SortedStableUnique that
 * those three facts determine it.
 */
module Sorting {
  import opened Strings

  /** The value a sort compares: a lowercased string or a number (a timestamp). */
  datatype SortKey = Text(text: string) | Stamp(stamp: int)

  /** Python's `<` on keys. The two kinds are never mixed within one sort. */
  predicate KeyLt(a: SortKey, b: SortKey) {
    match a
    case Text(x) => (match b case Text(y) => LexLt(x, y) case Stamp(_) => true)
    case Stamp(x) => (match b case Text(_) => false case Stamp(y) => x < y)
  }

  /** `a` goes strictly before `b`: ascending, or descending when `desc`. */
  predicate Before(a: SortKey, b: SortKey, desc: bool) {
    if desc then KeyLt(b, a) else KeyLt(a, b)
  }

  lemma KeyLtIrreflexive(a: SortKey)
    ensures !KeyLt(a, a)
  {
    if a.Text? { LexLtIrreflexive(a.text); }
  }

  lemma KeyLtTransitive(a: SortKey, b: SortKey, c: SortKey)
    requires KeyLt(a, b) && KeyLt(b, c)
    ensures KeyLt(a, c)
  {
    if a.Text? && b.Text? && c.Text? { LexLtTransitive(a.text, b.text, c.text); }
  }

  lemma KeyLtTotal(a: SortKey, b: SortKey)
    ensures a == b || KeyLt(a, b) || KeyLt(b, a)
  {
    if a.Text? && b.Text? { LexLtTotal(a.text, b.text); }
  }

  lemma KeyLtAsymmetric(a: SortKey, b: SortKey)
    requires KeyLt(a, b)
    ensures !KeyLt(b, a)
  {
    if KeyLt(b, a) {
      KeyLtTransitive(a, b, a);
      KeyLtIrreflexive(a);
    }
  }

  /** "Not below" is transitive on keys. */
  lemma KeyLeTransitive(a: SortKey, b: SortKey, c: SortKey)
    requires !KeyLt(b, a) && !KeyLt(c, b)
    ensures !KeyLt(c, a)
  {
    KeyLtTotal(a, b);
    KeyLtTotal(b, c);
    KeyLtIrreflexive(a);
    if KeyLt(c, a) {
      if a == b {
        KeyLtAsymmetric(c, b);
      } else if b == c {
        KeyLtAsymmetric(a, b);
      } else {
        KeyLtTransitive(a, b, c);
        KeyLtAsymmetric(a, c);
      }
    }
  }

  /** "Not after" is transitive: this is what makes the comparator a total preorder. */
  lemma NotBeforeTransitive(a: SortKey, b: SortKey, c: SortKey, desc: bool)
    requires !Before(b, a, desc) && !Before(c, b, desc)
    ensures !Before(c, a, desc)
  {
    if desc { KeyLeTransitive(c, b, a); } else { KeyLeTransitive(a, b, c); }
  }

  lemma BeforeIrreflexive(a: SortKey, desc: bool)
    ensures !Before(a, a, desc)
  {
    KeyLtIrreflexive(a);
  }

  lemma BeforeAsymmetric(a: SortKey, b: SortKey, desc: bool)
    requires Before(a, b, desc)
    ensures !Before(b, a, desc)
  {
    if desc { KeyLtAsymmetric(b, a); } else { KeyLtAsymmetric(a, b); }
  }

  /** No element is followed by one that belongs strictly before it. */
  predicate Sorted<T>(s: seq<T>, key: T -> SortKey, desc: bool) {
    forall i, j :: 0 <= i < j < |s| ==> !Before(key(s[j]), key(s[i]), desc)
  }

  /** The elements of `s` whose key is `k`, in their order in `s`. */
  function WithKey<T>(s: seq<T>, key: T -> SortKey, k: SortKey): seq<T> {
    if s == [] then [] else (if key(s[0]) == k then [s[0]] else []) + WithKey(s[1..], key, k)
  }

  /** Puts `x` in front of the first element that does not go strictly before it. */
  function Insert<T(==)>(x: T, s: seq<T>, key: T -> SortKey, desc: bool): (r: seq<T>)
    requires Sorted(s, key, desc)
    ensures multiset(r) == multiset(s) + multiset{x}
    ensures Sorted(r, key, desc)
  {
    if s == [] then [x]
    else if !Before(key(s[0]), key(x), desc) then
      InsertFrontSorted(x, s, key, desc);
      [x] + s
    else
      var rest := Insert(x, s[1..], key, desc);
      InsertBehindSorted(x, s, rest, key, desc);
      assert s == [s[0]] + s[1..];
      [s[0]] + rest
  }

  lemma InsertFrontSorted<T>(x: T, s: seq<T>, key: T -> SortKey, desc: bool)
    requires Sorted(s, key, desc) && s != [] && !Before(key(s[0]), key(x), desc)
    ensures Sorted([x] + s, key, desc)
  {
    var r := [x] + s;
    forall i, j | 0 <= i < j < |r| ensures !Before(key(r[j]), key(r[i]), desc) {
      if i == 0 {
        if j > 1 { NotBeforeTransitive(key(x), key(s[0]), key(s[j - 1]), desc); }
      } else {
        assert r[i] == s[i - 1] && r[j] == s[j - 1];
      }
    }
  }

  lemma InsertBehindSorted<T>(x: T, s: seq<T>, rest: seq<T>, key: T -> SortKey, desc: bool)
    requires Sorted(s, key, desc) && s != [] && Before(key(s[0]), key(x), desc)
    requires Sorted(rest, key, desc)
    requires multiset(rest) == multiset(s[1..]) + multiset{x}
    ensures Sorted([s[0]] + rest, key, desc)
  {
    var r := [s[0]] + rest;
    forall i, j | 0 <= i < j < |r| ensures !Before(key(r[j]), key(r[i]), desc) {
      if i == 0 {
        var y := r[j];
        assert y in multiset(rest) by { assert y == rest[j - 1]; }
        if y == x {
          BeforeAsymmetric(key(s[0]), key(x), desc);
        } else {
          assert y in s[1..];
          var m :| 0 <= m < |s[1..]| && s[1..][m] == y;
          assert s[m + 1] == y;
        }
      } else {
        assert r[i] == rest[i - 1] && r[j] == rest[j - 1];
      }
    }
  }

  /** `sorted(s, key=key, reverse=desc)`. */
  function SortBy<T(==)>(s: seq<T>, key: T -> SortKey, desc: bool): (r: seq<T>)
    ensures multiset(r) == multiset(s)
    ensures Sorted(r, key, desc)
  {
    if s == [] then []
    else
      assert s == [s[0]] + s[1..];
      Insert(s[0], SortBy(s[1..], key, desc), key, desc)
  }

  lemma {:induction false} InsertWithKey<T>(x: T, s: seq<T>, key: T -> SortKey, desc: bool, k: SortKey)
    requires Sorted(s, key, desc)
    ensures WithKey(Insert(x, s, key, desc), key, k) == (if key(x) == k then [x] else []) + WithKey(s, key, k)
    decreases |s|
  {
    if s == [] {
      assert Insert(x, s, key, desc) == [x] + s;
      WithKeyCons(x, s, key, k);
    } else if !Before(key(s[0]), key(x), desc) {
      WithKeyCons(x, s, key, k);
    } else {
      var tail := s[1..];
      var rest := Insert(x, tail, key, desc);
      InsertWithKey(x, tail, key, desc, k);
      assert Insert(x, s, key, desc) == [s[0]] + rest;
      WithKeyCons(s[0], rest, key, k);
      assert s == [s[0]] + tail;
      WithKeyCons(s[0], tail, key, k);
      assert key(s[0]) != key(x) by { BeforeIrreflexive(key(x), desc); }
      if key(x) == k {
        assert WithKey(s, key, k) == WithKey(tail, key, k);
      } else {
        assert WithKey(rest, key, k) == WithKey(tail, key, k);
      }
    }
  }

  lemma WithKeyCons<T>(x: T, s: seq<T>, key: T -> SortKey, k: SortKey)
    ensures WithKey([x] + s, key, k) == (if key(x) == k then [x] else []) + WithKey(s, key, k)
  {
    var r := [x] + s;
    assert r[0] == x && r[1..] == s;
  }

  /** Stability: the elements that share a key appear in the output in their input order. */
  lemma {:induction false} SortByIsStable<T>(s: seq<T>, key: T -> SortKey, desc: bool, k: SortKey)
    ensures WithKey(SortBy(s, key, desc), key, k) == WithKey(s, key, k)
    decreases |s|
  {
    if s != [] {
      SortByIsStable(s[1..], key, desc, k);
      InsertWithKey(s[0], SortBy(s[1..], key, desc), key, desc, k);
    }
  }

  lemma {:induction false} WithKeyNonEmpty<T>(s: seq<T>, key: T -> SortKey, k: SortKey)
    ensures WithKey(s, key, k) != [] <==> exists j :: 0 <= j < |s| && key(s[j]) == k
    decreases |s|
  {
    if s != [] {
      WithKeyNonEmpty(s[1..], key, k);
      if exists j :: 0 <= j < |s| && key(s[j]) == k {
        var j :| 0 <= j < |s| && key(s[j]) == k;
        if j > 0 { assert key(s[1..][j - 1]) == k; }
      }
      if exists j :: 0 <= j < |s[1..]| && key(s[1..][j]) == k {
        var j :| 0 <= j < |s[1..]| && key(s[1..][j]) == k;
        assert key(s[j + 1]) == k;
      }
    }
  }

  lemma FirstHasKey<T>(s: seq<T>, key: T -> SortKey)
    requires s != []
    ensures WithKey(s, key, key(s[0])) != []
  {
  }

  /**
   * A sorted, stable arrangement is unique: two sorted lists that agree, key by key,
   * on the order of the elements sharing that key are the same list.
   */
  lemma {:induction false} SortedStableUnique<T>(a: seq<T>, b: seq<T>, key: T -> SortKey, desc: bool)
    requires Sorted(a, key, desc) && Sorted(b, key, desc)
    requires forall k :: WithKey(a, key, k) == WithKey(b, key, k)
    ensures a == b
    decreases |a|
  {
    if a != [] { FirstHasKey(a, key); }
    if b != [] { FirstHasKey(b, key); }
    if a != [] && b != [] {
      SameFirstKey(a, b, key, desc);
      SameFirst(a, b, key);
      TailsAgree(a, b, key);
      SortedStableUnique(a[1..], b[1..], key, desc);
      assert a == [a[0]] + a[1..] && b == [b[0]] + b[1..];
    }
  }

  /** The key of the first element of a sorted list goes no later than any key in it. */
  lemma FirstKeyNotAfter<T>(a: seq<T>, key: T -> SortKey, desc: bool, k: SortKey)
    requires Sorted(a, key, desc) && WithKey(a, key, k) != []
    ensures !Before(k, key(a[0]), desc)
  {
    WithKeyNonEmpty(a, key, k);
    var j :| 0 <= j < |a| && key(a[j]) == k;
    if j == 0 { BeforeIrreflexive(k, desc); }
  }

  /** Two sorted lists with the same elements per key start with the same key. */
  lemma SameFirstKey<T>(a: seq<T>, b: seq<T>, key: T -> SortKey, desc: bool)
    requires a != [] && b != [] && Sorted(a, key, desc) && Sorted(b, key, desc)
    requires forall k :: WithKey(a, key, k) == WithKey(b, key, k)
    ensures key(a[0]) == key(b[0])
  {
    var k1, k2 := key(a[0]), key(b[0]);
    FirstHasKey(a, key);
    FirstHasKey(b, key);
    assert WithKey(a, key, k2) != [];
    FirstKeyNotAfter(a, key, desc, k2);
    assert WithKey(b, key, k1) != [];
    FirstKeyNotAfter(b, key, desc, k1);
    KeyLtTotal(k1, k2);
  }

  /** ... and so with the same element. */
  lemma SameFirst<T>(a: seq<T>, b: seq<T>, key: T -> SortKey)
    requires a != [] && b != [] && key(a[0]) == key(b[0])
    requires forall k :: WithKey(a, key, k) == WithKey(b, key, k)
    ensures a[0] == b[0]
  {
    var k := key(a[0]);
    assert [a[0]] + a[1..] == a && [b[0]] + b[1..] == b;
    WithKeyCons(a[0], a[1..], key, k);
    WithKeyCons(b[0], b[1..], key, k);
    assert WithKey(a, key, k)[0] == a[0] && WithKey(b, key, k)[0] == b[0];
  }

  /** Removing the same first element keeps the elements per key equal. */
  lemma TailsAgree<T>(a: seq<T>, b: seq<T>, key: T -> SortKey)
    requires a != [] && b != [] && a[0] == b[0]
    requires forall k :: WithKey(a, key, k) == WithKey(b, key, k)
    ensures forall k :: WithKey(a[1..], key, k) == WithKey(b[1..], key, k)
  {
    forall k ensures WithKey(a[1..], key, k) == WithKey(b[1..], key, k) {
      TailAgrees(a, b, key, k);
    }
  }

  lemma TailAgrees<T>(a: seq<T>, b: seq<T>, key: T -> SortKey, k: SortKey)
    requires a != [] && b != [] && a[0] == b[0]
    requires WithKey(a, key, k) == WithKey(b, key, k)
    ensures WithKey(a[1..], key, k) == WithKey(b[1..], key, k)
  {
    var pre := if key(a[0]) == k then [a[0]] else [];
    assert WithKey(a, key, k) == pre + WithKey(a[1..], key, k);
    assert WithKey(b, key, k) == pre + WithKey(b[1..], key, k);
    assert WithKey(a[1..], key, k) == WithKey(a, key, k)[|pre|..];
    assert WithKey(b[1..], key, k) == WithKey(b, key, k)[|pre|..];
  }

  function Reverse<T>(s: seq<T>): (r: seq<T>)
    ensures |r| == |s|
    ensures forall i :: 0 <= i < |s| ==> r[i] == s[|s| - 1 - i]
  {
    if s == [] then [] else Reverse(s[1..]) + [s[0]]
  }

  lemma {:induction false} WithKeyAppend<T>(a: seq<T>, b: seq<T>, key: T -> SortKey, k: SortKey)
    ensures WithKey(a + b, key, k) == WithKey(a, key, k) + WithKey(b, key, k)
    decreases |a|
  {
    if a == [] {
      assert a + b == b;
    } else {
      WithKeyAppend(a[1..], b, key, k);
      assert a + b == [a[0]] + (a[1..] + b) && a == [a[0]] + a[1..];
      WithKeyCons(a[0], a[1..] + b, key, k);
      WithKeyCons(a[0], a[1..], key, k);
    }
  }

  lemma {:induction false} WithKeyReverse<T>(s: seq<T>, key: T -> SortKey, k: SortKey)
    ensures WithKey(Reverse(s), key, k) == Reverse(WithKey(s, key, k))
    decreases |s|
  {
    if s != [] {
      WithKeyReverse(s[1..], key, k);
      WithKeyAppend(Reverse(s[1..]), [s[0]], key, k);
      assert WithKey([s[0]], key, k) == (if key(s[0]) == k then [s[0]] else []) + WithKey([], key, k);
      var w := WithKey(s, key, k);
      if key(s[0]) == k {
        assert w == [s[0]] + WithKey(s[1..], key, k);
        assert w[1..] == WithKey(s[1..], key, k);
      } else {
        assert w == WithKey(s[1..], key, k);
      }
    }
  }

  /** Read backwards, an ascending list is a descending one. */
  lemma ReverseOfAscending<T>(s: seq<T>, key: T -> SortKey)
    requires Sorted(s, key, false)
    ensures Sorted(Reverse(s), key, true)
  {
    var r := Reverse(s);
    forall i, j | 0 <= i < j < |r| ensures !Before(key(r[j]), key(r[i]), true) {
      assert r[i] == s[|s| - 1 - i] && r[j] == s[|s| - 1 - j];
    }
  }

  lemma ReverseShort<T>(s: seq<T>)
    requires |s| <= 1
    ensures Reverse(s) == s
  {
  }

  /** When no two elements share a key, descending order is ascending order read backwards. */
  lemma DescendingIsReversedAscending<T>(s: seq<T>, key: T -> SortKey)
    requires forall i, j :: 0 <= i < j < |s| ==> key(s[i]) != key(s[j])
    ensures SortBy(s, key, true) == Reverse(SortBy(s, key, false))
  {
    var asc, dsc := SortBy(s, key, false), SortBy(s, key, true);
    var rev := Reverse(asc);
    ReverseOfAscending(asc, key);
    forall k ensures WithKey(dsc, key, k) == WithKey(rev, key, k) {
      SortByIsStable(s, key, true, k);
      SortByIsStable(s, key, false, k);
      WithKeyReverse(asc, key, k);
      AtMostOneWithKey(s, key, k);
      ReverseShort(WithKey(s, key, k));
    }
    SortedStableUnique(dsc, rev, key, true);
  }

  lemma {:induction false} AtMostOneWithKey<T>(s: seq<T>, key: T -> SortKey, k: SortKey)
    requires forall i, j :: 0 <= i < j < |s| ==> key(s[i]) != key(s[j])
    ensures |WithKey(s, key, k)| <= 1
    decreases |s|
  {
    if s != [] {
      var tail := s[1..];
      AtMostOneWithKey(tail, key, k);
      if key(s[0]) == k {
        WithKeyNonEmpty(tail, key, k);
        assert forall j :: 0 <= j < |tail| ==> tail[j] == s[j + 1];
      }
    }
  }
}

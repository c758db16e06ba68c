/**
 * The string operations the event catalogue relies on, with Python's meaning:
 * `str.lower` (restricted to ASCII), `str.strip` with no argument, `sep.join`,
 * `str.split(c)`, the substring test `t in s`, `str.replace` of one character,
 * and the code-point order in which Python compares strings.
 */
module Strings {

  /** The characters for which Python's `str.isspace` holds; `str.strip()` removes exactly these. */
  predicate IsSpace(c: char) {
    var n := c as int;
    (0x09 <= n <= 0x0D) || (0x1C <= n <= 0x20) || n == 0x85 || n == 0xA0 || n == 0x1680 ||
    (0x2000 <= n <= 0x200A) || n == 0x2028 || n == 0x2029 || n == 0x202F || n == 0x205F || n == 0x3000
  }

  predicate AllSpace(s: string) {
    forall i :: 0 <= i < |s| ==> IsSpace(s[i])
  }

  // ---------------------------------------------------------------- case

  function LowerChar(c: char): char {
    if 'A' <= c <= 'Z' then (c as int + 32) as char else c
  }

  /** ASCII lowercasing, character by character. */
  function Lower(s: string): (r: string)
    ensures |r| == |s|
    ensures forall i :: 0 <= i < |s| ==> r[i] == LowerChar(s[i])
  {
    if s == [] then [] else [LowerChar(s[0])] + Lower(s[1..])
  }

  function UpperChar(c: char): char {
    if 'a' <= c <= 'z' then (c as int - 32) as char else c
  }

  /** `str.title()` on a single ASCII word: first letter upper case, the rest lower case. */
  function Title(s: string): (r: string)
    ensures |r| == |s|
    ensures s != [] ==> r[0] == UpperChar(s[0])
    ensures forall i :: 0 < i < |s| ==> r[i] == LowerChar(s[i])
  {
    if s == [] then [] else [UpperChar(s[0])] + Lower(s[1..])
  }

  lemma {:induction false} LowerIdempotent(s: string)
    ensures Lower(Lower(s)) == Lower(s)
  {
  }

  /** Lowercasing never turns a non-space into a space or back, so it commutes with the blank test. */
  lemma LowerKeepsSpaces(s: string)
    ensures AllSpace(Lower(s)) <==> AllSpace(s)
  {
  }

  // ---------------------------------------------------------------- strip

  function StripLeft(s: string): (r: string)
    ensures |r| <= |s| && r == s[|s| - |r|..]
    ensures forall i :: 0 <= i < |s| - |r| ==> IsSpace(s[i])
    ensures r != [] ==> !IsSpace(r[0])
    decreases |s|
  {
    if s != [] && IsSpace(s[0]) then StripLeft(s[1..]) else s
  }

  function StripRight(s: string): (r: string)
    ensures |r| <= |s| && r == s[..|r|]
    ensures forall i :: |r| <= i < |s| ==> IsSpace(s[i])
    ensures r != [] ==> !IsSpace(r[|r| - 1])
    decreases |s|
  {
    if s != [] && IsSpace(s[|s| - 1]) then StripRight(s[..|s| - 1]) else s
  }

  /** Python's `s.strip()`: the longest infix of `s` that neither starts nor ends with a space. */
  function Strip(s: string): (r: string)
    ensures r == [] || (!IsSpace(r[0]) && !IsSpace(r[|r| - 1]))
    ensures r == [] <==> AllSpace(s)
    ensures forall c :: c in r ==> c in s
  {
    var l := StripLeft(s);
    var r := StripRight(l);
    assert r == [] ==> AllSpace(s) by {
      if r == [] {
        forall i | 0 <= i < |s| ensures IsSpace(s[i]) {
          if i >= |s| - |l| {
            assert s[i] == l[i - (|s| - |l|)];
          }
        }
      }
    }
    assert forall c :: c in r ==> c in l;
    assert forall c :: c in l ==> c in s;
    r
  }

  /** The stripped string is the part of `s` left after removing whitespace from both ends. */
  lemma StripIsInfix(s: string)
    ensures exists i, j :: 0 <= i <= j <= |s| && Strip(s) == s[i..j] &&
              (forall k :: 0 <= k < i ==> IsSpace(s[k])) && (forall k :: j <= k < |s| ==> IsSpace(s[k]))
  {
    var l := StripLeft(s);
    var r := StripRight(l);
    var i := |s| - |l|;
    var j := i + |r|;
    assert r == l[..|r|] && l == s[i..];
    assert s[i..j] == r;
    forall k | j <= k < |s| ensures IsSpace(s[k]) {
      assert s[k] == l[k - i];
    }
  }

  /** A string that is already stripped is left alone. */
  lemma StripIdentity(s: string)
    requires s == [] || (!IsSpace(s[0]) && !IsSpace(s[|s| - 1]))
    ensures Strip(s) == s
  {
  }

  // ---------------------------------------------------------------- join and split

  /** Python's `sep.join(xs)`. */
  function Join(sep: string, xs: seq<string>): (r: string)
    decreases |xs|
  {
    if |xs| == 0 then "" else if |xs| == 1 then xs[0] else xs[0] + sep + Join(sep, xs[1..])
  }

  /** The index of the first `c` in `s`, or `|s|` when there is none. */
  function FindChar(s: string, c: char): (i: nat)
    ensures i <= |s|
    ensures i < |s| ==> s[i] == c
    ensures forall j :: 0 <= j < i ==> s[j] != c
  {
    if s == [] then 0 else if s[0] == c then 0 else 1 + FindChar(s[1..], c)
  }

  /** Python's `s.split(c)` for a one-character separator: always at least one piece, `""` gives `[""]`. */
  function Split(s: string, c: char): (r: seq<string>)
    ensures |r| >= 1
    ensures forall i :: 0 <= i < |r| ==> c !in r[i]
    decreases |s|
  {
    var i := FindChar(s, c);
    if i == |s| then [s] else [s[..i]] + Split(s[i + 1..], c)
  }

  /** Joining the pieces of a split with the same character gives the string back. */
  lemma {:induction false} JoinSplit(s: string, c: char)
    ensures Join([c], Split(s, c)) == s
    decreases |s|
  {
    var i := FindChar(s, c);
    if i < |s| {
      var head, tail := s[..i], s[i + 1..];
      var rest := Split(tail, c);
      JoinSplit(tail, c);
      assert Split(s, c) == [head] + rest;
      JoinCons([c], head, rest);
      assert s == head + [c] + tail;
    }
  }

  lemma JoinCons(sep: string, x: string, xs: seq<string>)
    requires xs != []
    ensures Join(sep, [x] + xs) == x + sep + Join(sep, xs)
  {
    assert ([x] + xs)[0] == x && ([x] + xs)[1..] == xs;
  }

  /** Splitting a join gives the pieces back, provided no piece holds the separator. */
  lemma {:induction false} SplitJoin(xs: seq<string>, c: char)
    requires |xs| >= 1
    requires forall i :: 0 <= i < |xs| ==> c !in xs[i]
    ensures Split(Join([c], xs), c) == xs
    decreases |xs|
  {
    if |xs| == 1 {
      assert FindChar(xs[0], c) == |xs[0]|;
    } else {
      var s := Join([c], xs);
      var tail := Join([c], xs[1..]);
      assert s == xs[0] + [c] + tail;
      FindCharAfter(xs[0], c, tail);
      assert s[..|xs[0]|] == xs[0];
      assert s[|xs[0]| + 1..] == tail;
      SplitJoin(xs[1..], c);
    }
  }

  lemma FindCharAfter(a: string, c: char, b: string)
    requires c !in a
    ensures FindChar(a + [c] + b, c) == |a|
  {
    var s := a + [c] + b;
    assert s[|a|] == c;
    assert forall j :: 0 <= j < |a| ==> s[j] == a[j];
  }

  // ---------------------------------------------------------------- replace

  /** Python's `s.replace('Z', '+00:00')`. */
  function ReplaceZ(s: string): (r: string)
    ensures 'Z' !in r
  {
    if s == [] then [] else (if s[0] == 'Z' then "+00:00" else [s[0]]) + ReplaceZ(s[1..])
  }

  /** A string without a `Z` is left as it is. */
  lemma {:induction false} ReplaceZIdentity(s: string)
    requires 'Z' !in s
    ensures ReplaceZ(s) == s
  {
    if s != [] {
      assert 'Z' !in s[1..];
      ReplaceZIdentity(s[1..]);
    }
  }

  // ---------------------------------------------------------------- substring

  /** Python's `term in text` for strings: `term` occurs as a contiguous run of `text`. */
  predicate Contains(text: string, term: string)
    decreases |text|
  {
    term <= text || (text != [] && Contains(text[1..], term))
  }

  /** `term` occurs in `text` starting at position `i`. */
  predicate OccursAt(text: string, term: string, i: int) {
    0 <= i <= |text| - |term| && text[i..i + |term|] == term
  }

  /** The recursive test agrees with the definition by position. */
  lemma {:induction false} ContainsIffAt(text: string, term: string)
    ensures Contains(text, term) <==> exists i :: OccursAt(text, term, i)
    decreases |text|
  {
    if term <= text {
      assert OccursAt(text, term, 0);
    }
    if text != [] {
      ContainsIffAt(text[1..], term);
      if exists i :: OccursAt(text[1..], term, i) {
        var i :| OccursAt(text[1..], term, i);
        assert text[i + 1..i + 1 + |term|] == text[1..][i..i + |term|];
        assert OccursAt(text, term, i + 1);
      }
      if exists i :: OccursAt(text, term, i) {
        var i :| OccursAt(text, term, i);
        if i > 0 {
          assert text[1..][i - 1..i - 1 + |term|] == text[i..i + |term|];
          assert OccursAt(text[1..], term, i - 1);
        }
      }
    } else if exists i :: OccursAt(text, term, i) {
      var i :| OccursAt(text, term, i);
      assert term == [];
    }
  }

  lemma {:induction false} ContainsInLeft(a: string, b: string, term: string)
    requires Contains(a, term)
    ensures Contains(a + b, term)
    decreases |a|
  {
    if term <= a {
      assert term <= a + b;
    } else {
      ContainsInLeft(a[1..], b, term);
      assert (a + b)[1..] == a[1..] + b;
    }
  }

  lemma {:induction false} ContainsInRight(a: string, b: string, term: string)
    requires Contains(b, term)
    ensures Contains(a + b, term)
    decreases |a|
  {
    if a == [] {
      assert a + b == b;
    } else {
      ContainsInRight(a[1..], b, term);
      assert (a + b)[1..] == a[1..] + b;
    }
  }

  // ---------------------------------------------------------------- order

  /** Python's `a < b` on strings: code-point lexicographic order, a proper prefix first. */
  predicate LexLt(a: string, b: string)
    decreases |a|
  {
    if a == [] then b != []
    else if b == [] then false
    else if a[0] != b[0] then a[0] < b[0]
    else LexLt(a[1..], b[1..])
  }

  lemma {:induction false} LexLtIrreflexive(a: string)
    ensures !LexLt(a, a)
    decreases |a|
  {
    if a != [] { LexLtIrreflexive(a[1..]); }
  }

  lemma {:induction false} LexLtTransitive(a: string, b: string, c: string)
    requires LexLt(a, b) && LexLt(b, c)
    ensures LexLt(a, c)
    decreases |a|
  {
    if a != [] && b != [] && c != [] && a[0] == b[0] == c[0] {
      LexLtTransitive(a[1..], b[1..], c[1..]);
    }
  }

  lemma {:induction false} LexLtTotal(a: string, b: string)
    ensures a == b || LexLt(a, b) || LexLt(b, a)
    decreases |a|
  {
    if a != [] && b != [] && a[0] == b[0] {
      LexLtTotal(a[1..], b[1..]);
      if a[1..] == b[1..] {
        assert a == [a[0]] + a[1..] && b == [b[0]] + b[1..];
      }
    }
  }
}

/** String primitives shared by the frontend and the backend model:
    substring search (`String.prototype.includes`), ASCII lower-casing
    (`toLowerCase` / `str.lower`), Python's `str.strip()`, and the
    lexicographic collation order used to compare lap times, in which ':'
    and '.' rank below the digits (`Weight`). */
module Text {

  /** Python's `str.isspace()` characters, the set `str.strip()` removes. */
  predicate IsSpace(c: char) {
    ('\t' <= c <= '\r') || ('\U{1c}' <= c <= '\U{1f}') || c == ' ' ||
    c == '\U{85}' || c == '\U{a0}' || c == '\U{1680}' ||
    ('\U{2000}' <= c <= '\U{200a}') || c == '\U{2028}' || c == '\U{2029}' ||
    c == '\U{202f}' || c == '\U{205f}' || c == '\U{3000}'
  }

  predicate AllSpace(s: string) {
    forall k :: 0 <= k < |s| ==> IsSpace(s[k])
  }

  predicate IsDigit(c: char) {
    '0' <= c <= '9'
  }

  // ---------------------------------------------------------------------
  // Substring search

  /** `needle` occurs in `hay` starting at index `i`. */
  predicate OccursAt(hay: string, needle: string, i: int) {
    0 <= i && i + |needle| <= |hay| && hay[i..i + |needle|] == needle
  }

  /** `hay.includes(needle)`: some occurrence, anywhere. */
  predicate Contains(hay: string, needle: string) {
    exists i | 0 <= i <= |hay| :: OccursAt(hay, needle, i)
  }

  lemma EmptyIsContained(hay: string)
    ensures Contains(hay, "")
  {
    assert OccursAt(hay, "", 0);
  }

  /** Occurrence is transitive: a substring of a substring is a substring. */
  lemma ContainsTransitive(a: string, b: string, c: string)
    requires Contains(a, b) && Contains(b, c)
    ensures Contains(a, c)
  {
    var i :| 0 <= i <= |a| && OccursAt(a, b, i);
    var j :| 0 <= j <= |b| && OccursAt(b, c, j);
    assert a[i..i + |b|] == b;
    assert b[j..j + |c|] == c;
    forall k | 0 <= k < |c| ensures a[i + j + k] == c[k] {
      assert c[k] == b[j..j + |c|][k] == b[j + k];
      assert b[j + k] == a[i..i + |b|][j + k] == a[i + j + k];
    }
    assert a[i + j..i + j + |c|] == c;
    assert OccursAt(a, c, i + j);
  }

  /** The middle part of a concatenation is contained in it. */
  lemma ContainsMiddle(a: string, b: string, c: string)
    ensures Contains(a + b + c, b)
  {
    assert (a + b + c)[|a|..|a| + |b|] == b;
    assert OccursAt(a + b + c, b, |a|);
  }

  // ---------------------------------------------------------------------
  // Lower-casing

  function LowerChar(c: char): (d: char)
    ensures 'A' <= c <= 'Z' ==> d as int == c as int + 32
    ensures !('A' <= c <= 'Z') ==> d == c
  {
    if 'A' <= c <= 'Z' then (c as int + 32) as char else c
  }

  /** ASCII lower-casing, character by character; length is preserved. */
  function Lower(s: string): (r: string)
    ensures |r| == |s|
    ensures forall k :: 0 <= k < |s| ==> r[k] == LowerChar(s[k])
  {
    seq(|s|, k requires 0 <= k < |s| => LowerChar(s[k]))
  }

  lemma LowerSlice(s: string, i: int, j: int)
    requires 0 <= i <= j <= |s|
    ensures Lower(s)[i..j] == Lower(s[i..j])
  {
  }

  /** Lower-casing both sides keeps every occurrence. */
  lemma LowerKeepsContains(hay: string, needle: string)
    requires Contains(hay, needle)
    ensures Contains(Lower(hay), Lower(needle))
  {
    var i :| 0 <= i <= |hay| && OccursAt(hay, needle, i);
    LowerSlice(hay, i, i + |needle|);
    assert OccursAt(Lower(hay), Lower(needle), i);
  }

  // ---------------------------------------------------------------------
  // str.strip()

  /** Number of leading whitespace characters. */
  function LeadingSpaces(s: string): (n: nat)
    ensures n <= |s|
    ensures forall k :: 0 <= k < n ==> IsSpace(s[k])
    ensures n < |s| ==> !IsSpace(s[n])
  {
    if |s| > 0 && IsSpace(s[0]) then 1 + LeadingSpaces(s[1..]) else 0
  }

  /** Number of trailing whitespace characters. */
  function TrailingSpaces(s: string): (n: nat)
    ensures n <= |s|
    ensures forall k :: |s| - n <= k < |s| ==> IsSpace(s[k])
    ensures n < |s| ==> !IsSpace(s[|s| - n - 1])
  {
    if |s| > 0 && IsSpace(s[|s| - 1]) then 1 + TrailingSpaces(s[..|s| - 1]) else 0
  }

  /** Python's `s.strip()`: the longest infix of `s` that neither starts nor
      ends with whitespace, obtained by removing only whitespace. */
  function Strip(s: string): (r: string)
    ensures exists i, j :: 0 <= i <= j <= |s| && r == s[i..j] && AllSpace(s[..i]) && AllSpace(s[j..])
    ensures r != [] ==> !IsSpace(r[0]) && !IsSpace(r[|r| - 1])
    ensures r == [] ==> AllSpace(s)
  {
    var i := LeadingSpaces(s);
    var n := TrailingSpaces(s[i..]);
    var j := |s| - n;
    assert i < |s| ==> i < j by {
      if i < |s| { assert s[i..][0] == s[i]; }
    }
    assert AllSpace(s[..i]);
    assert AllSpace(s[j..]) by {
      forall k | 0 <= k < |s| - j ensures IsSpace(s[j..][k]) {
        assert s[j..][k] == s[i..][|s| - i - n + k];
      }
    }
    assert i < j ==> !IsSpace(s[j - 1]) by {
      if i < j { assert s[j - 1] == s[i..][|s| - i - n - 1]; }
    }
    assert i == |s| ==> s[..i] == s;
    s[i..j]
  }

  // ---------------------------------------------------------------------
  // Collation order

  /** The primary weight of a character in the root collation order that
      `localeCompare` follows, on the characters of lap times: punctuation
      ranks below the digits, with ':' below '.'. Every other character keeps
      its code-point rank. */
  function Weight(c: char): (w: int)
    ensures w < 0 <==> c == ':' || c == '.'
    ensures c != ':' && c != '.' ==> w == c as int
    ensures c == ':' ==> w < Weight('.')
  {
    if c == ':' then -2 else if c == '.' then -1 else c as int
  }

  /** No two characters share a weight, so the order below is total. */
  lemma WeightInjective(c: char, d: char)
    requires Weight(c) == Weight(d)
    ensures c == d
  {
    if c != ':' && c != '.' && d != ':' && d != '.' {
      assert c as int == d as int;
    }
  }

  /** `a <= b` in collation order: `a` is a prefix of `b`, or `a` has the
      lighter character at the first position where they differ. */
  predicate Le(a: string, b: string) {
    |a| == 0 || (|b| > 0 && (Weight(a[0]) < Weight(b[0]) || (a[0] == b[0] && Le(a[1..], b[1..]))))
  }

  lemma {:induction false} LeReflexive(a: string)
    ensures Le(a, a)
  {
    if |a| > 0 { LeReflexive(a[1..]); }
  }

  lemma {:induction false} LeAntisymmetric(a: string, b: string)
    requires Le(a, b) && Le(b, a)
    ensures a == b
  {
    if |a| > 0 {
      if Weight(a[0]) == Weight(b[0]) { WeightInjective(a[0], b[0]); }
      LeAntisymmetric(a[1..], b[1..]);
      assert a == [a[0]] + a[1..] && b == [b[0]] + b[1..];
    }
  }

  lemma {:induction false} LeTransitive(a: string, b: string, c: string)
    requires Le(a, b) && Le(b, c)
    ensures Le(a, c)
  {
    if |a| > 0 && a[0] == b[0] && b[0] == c[0] {
      LeTransitive(a[1..], b[1..], c[1..]);
    }
  }

  lemma {:induction false} LeTotal(a: string, b: string)
    ensures Le(a, b) || Le(b, a)
  {
    if |a| > 0 && |b| > 0 {
      if a[0] == b[0] {
        LeTotal(a[1..], b[1..]);
      } else if Weight(a[0]) == Weight(b[0]) {
        WeightInjective(a[0], b[0]);
      }
    }
  }
}

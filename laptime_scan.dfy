/** The backend's lap-time search in the OCR text: the first time of the
    form `\d{1,2}:\d{2}\.\d{2,3}` that follows the anchor "최단 시간"
    ("best time"), taken with the regular expression's leftmost, lazy-gap,
    greedy-digit semantics. Digits are the ASCII digits. */
module LapTimeScan {
  import opened Text
  import opened Wrappers

  const Anchor: string := "최단 시간"

  /** `t` is `m` digits, ':', two digits, '.', and `f` digits. */
  predicate ShapedAs(t: string, m: nat, f: nat) {
    |t| == m + 4 + f &&
    (forall k :: 0 <= k < m ==> IsDigit(t[k])) &&
    t[m] == ':' && IsDigit(t[m + 1]) && IsDigit(t[m + 2]) && t[m + 3] == '.' &&
    (forall k :: m + 4 <= k < |t| ==> IsDigit(t[k]))
  }

  /** `t` matches `\d{1,2}:\d{2}\.\d{2,3}` as a whole. */
  predicate IsLapTime(t: string) {
    exists m, f | 1 <= m <= 2 && 2 <= f <= 3 :: ShapedAs(t, m, f)
  }

  /** Lap-time-shaped text of length `len` starts at `q`. */
  predicate LapTimeAt(s: string, q: nat, len: nat) {
    q + len <= |s| && IsLapTime(s[q..q + len])
  }

  /** Tries the pattern at `q` with `m` leading digits; the fraction takes a
      third digit when one is there. Gives the length of the match. */
  function MatchWith(s: string, q: nat, m: nat): (n: Option<nat>)
    requires 1 <= m <= 2
    ensures n.Some? ==> q + n.value <= |s| && IsLapTime(s[q..q + n.value])
    ensures n.Some? <==> q + m + 6 <= |s| && ShapedAs(s[q..q + m + 6], m, 2)
    ensures n.Some? ==> (n.value == m + 7 <==> q + m + 7 <= |s| && IsDigit(s[q + m + 6]))
    ensures n.Some? ==> n.value == m + 6 || n.value == m + 7
  {
    if q + m + 6 <= |s| && ShapedAs(s[q..q + m + 6], m, 2) then
      if q + m + 7 <= |s| && IsDigit(s[q + m + 6]) then
        var u := s[q..q + m + 7];
        assert forall k :: 0 <= k < m + 6 ==> u[k] == s[q..q + m + 6][k];
        assert u[m + 6] == s[q + m + 6];
        assert ShapedAs(u, m, 3);
        Some(m + 7)
      else
        assert ShapedAs(s[q..q + m + 6], m, 2);
        Some(m + 6)
    else None
  }

  /** Lap-time-shaped text at `q` with `m` leading digits makes the pattern
      with `m` leading digits match there, at least as far. */
  lemma MatchWithCovers(s: string, q: nat, len: nat, m: nat, f: nat)
    requires 1 <= m <= 2 && 2 <= f <= 3
    requires q + len <= |s| && ShapedAs(s[q..q + len], m, f)
    ensures MatchWith(s, q, m).Some? && len <= MatchWith(s, q, m).value
  {
    var t := s[q..q + len];
    assert s[q..q + m + 6] == t[..m + 6];
    assert ShapedAs(s[q..q + m + 6], m, 2);
    if f == 3 { assert s[q + m + 6] == t[m + 6]; }
  }

  /** A ':' in second place leaves no room for two leading digits. */
  lemma OneDigitRulesOutTwo(s: string, q: nat, len: nat, f: nat)
    requires q + len <= |s| && ShapedAs(s[q..q + len], 1, f)
    ensures MatchWith(s, q, 2).None?
  {
    assert s[q + 1] == s[q..q + len][1];
    if q + 8 <= |s| { assert s[q..q + 8][1] == s[q + 1]; }
  }

  /** The pattern tried at `q`: two leading digits first, then one. The
      match is the longest lap-time-shaped text starting at `q`, and there is
      one whenever such text starts there. */
  function MatchAt(s: string, q: nat): (n: Option<nat>)
    ensures n.Some? ==> q + n.value <= |s| && IsLapTime(s[q..q + n.value])
    ensures forall len: nat :: LapTimeAt(s, q, len) ==> n.Some? && len <= n.value
  {
    var two := MatchWith(s, q, 2);
    assert forall len: nat :: LapTimeAt(s, q, len) ==>
        (if two.Some? then two else MatchWith(s, q, 1)).Some? &&
        len <= (if two.Some? then two else MatchWith(s, q, 1)).value by {
      forall len: nat | LapTimeAt(s, q, len)
        ensures (if two.Some? then two else MatchWith(s, q, 1)).Some? &&
                len <= (if two.Some? then two else MatchWith(s, q, 1)).value
      {
        var m, f :| 1 <= m <= 2 && 2 <= f <= 3 && ShapedAs(s[q..q + len], m, f);
        MatchWithCovers(s, q, len, m, f);
        if m == 1 { OneDigitRulesOutTwo(s, q, len, f); }
      }
    }
    if two.Some? then two else MatchWith(s, q, 1)
  }

  /** The lazy gap: the first position at or after `q` where the pattern matches. */
  function FindFrom(s: string, q: nat): (p: Option<nat>)
    ensures p.Some? ==> q <= p.value && MatchAt(s, p.value).Some?
    ensures p.Some? ==> forall k :: q <= k < p.value ==> MatchAt(s, k).None?
    ensures p.None? ==> forall k :: q <= k ==> MatchAt(s, k).None?
    decreases |s| - q
  {
    if q >= |s| then
      assert forall k :: q <= k ==> MatchAt(s, k).None? by {
        forall k | q <= k ensures MatchAt(s, k).None? {
          assert MatchWith(s, k, 2).None? && MatchWith(s, k, 1).None?;
        }
      }
      None
    else if MatchAt(s, q).Some? then Some(q)
    else FindFrom(s, q + 1)
  }

  /** The first occurrence of `pat` in `s`. */
  function FirstOccurrence(s: string, pat: string, from: nat): (a: Option<nat>)
    ensures a.Some? ==> from <= a.value && OccursAt(s, pat, a.value)
    ensures a.Some? ==> forall k :: from <= k < a.value ==> !OccursAt(s, pat, k)
    ensures a.None? ==> forall k :: from <= k ==> !OccursAt(s, pat, k)
    decreases |s| - from
  {
    if from + |pat| > |s| then None
    else if s[from..from + |pat|] == pat then Some(from)
    else FirstOccurrence(s, pat, from + 1)
  }

  /** `re.search(r"최단 시간(?:.|\n)*?(\d{1,2}:\d{2}\.\d{2,3})", text).group(1)`,
      or `None` when the search fails. */
  function FindLapTime(text: string): (r: Option<string>)
    ensures r.Some? ==> IsLapTime(r.value)
    ensures r.Some? ==> Contains(text, r.value)
  {
    match FirstOccurrence(text, Anchor, 0)
    case None => None
    case Some(a) =>
      match FindFrom(text, a + |Anchor|)
      case None => None
      case Some(p) =>
        var t := text[p..p + MatchAt(text, p).value];
        assert OccursAt(text, t, p);
        Some(t)
  }

  /** A found lap time has the lap-time shape and stands after an anchor. */
  lemma FoundLapTimeIsShaped(text: string)
    requires FindLapTime(text).Some?
    ensures IsLapTime(FindLapTime(text).value)
    ensures exists a, p :: OccursAt(text, Anchor, a) && a + |Anchor| <= p &&
                           OccursAt(text, FindLapTime(text).value, p)
  {
    var a := FirstOccurrence(text, Anchor, 0).value;
    var p := FindFrom(text, a + |Anchor|).value;
    var t := FindLapTime(text).value;
    assert OccursAt(text, t, p);
  }

  /** The search fails only when no lap-time-shaped text follows any anchor. */
  lemma NotFoundMeansNoLapTime(text: string, a: nat, q: nat, n: nat)
    requires FindLapTime(text).None?
    requires OccursAt(text, Anchor, a) && a + |Anchor| <= q && q + n <= |text|
    ensures !IsLapTime(text[q..q + n])
  {
    var first := FirstOccurrence(text, Anchor, 0);
    assert first.Some?;
    assert first.value <= a;
    assert LapTimeAt(text, q, n) ==> MatchAt(text, q).Some?;
  }

  /** The search returns the leftmost, then longest match after the first
      anchor: no lap-time-shaped text starts between that anchor and the
      result, and none starting where the result starts is longer. */
  lemma FoundLapTimeIsLeftmostLongest(text: string, q: nat, n: nat)
    requires FindLapTime(text).Some?
    requires FirstOccurrence(text, Anchor, 0).value + |Anchor| <= q
    requires q + n <= |text| && IsLapTime(text[q..q + n])
    ensures OccursAt(text, FindLapTime(text).value,
                     FindFrom(text, FirstOccurrence(text, Anchor, 0).value + |Anchor|).value)
    ensures FindFrom(text, FirstOccurrence(text, Anchor, 0).value + |Anchor|).value <= q
    ensures FindFrom(text, FirstOccurrence(text, Anchor, 0).value + |Anchor|).value == q ==>
              n <= |FindLapTime(text).value|
  {
    var a := FirstOccurrence(text, Anchor, 0).value;
    assert FindFrom(text, a + |Anchor|).Some?;
    var p := FindFrom(text, a + |Anchor|).value;
    assert LapTimeAt(text, q, n);
    assert MatchAt(text, q).Some?;
    assert |FindLapTime(text).value| == MatchAt(text, p).value;
  }
}

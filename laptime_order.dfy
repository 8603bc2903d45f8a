/** When the ranking's collation order on lap times agrees with comparing the
    durations they denote: for lap times of one fixed width (the same number
    of minute digits and of fraction digits) whose seconds are below 60. */
module LapTimeOrder {
  import opened Text
  import opened LapTimeScan

  function Pow10(n: nat): (p: nat)
    ensures p >= 1
  {
    if n == 0 then 1 else 10 * Pow10(n - 1)
  }

  predicate AllDigits(s: string) {
    forall k :: 0 <= k < |s| ==> IsDigit(s[k])
  }

  function DigitValue(c: char): (d: nat)
    requires IsDigit(c)
    ensures d < 10
  {
    c as int - '0' as int
  }

  /** The number a string of decimal digits denotes. */
  function Number(s: string): (v: nat)
    requires AllDigits(s)
    ensures v < Pow10(|s|)
  {
    if s == [] then 0
    else
      var p := Pow10(|s| - 1);
      var rest := Number(s[1..]);
      MulLe(DigitValue(s[0]), 9, p);
      DigitValue(s[0]) * p + rest
  }

  lemma MulLe(x: nat, y: nat, p: nat)
    requires x <= y
    ensures x * p <= y * p
  {
  }

  /** On digit strings of equal length, text order is numeric order. */
  lemma {:induction false} NumberOrder(a: string, b: string)
    requires |a| == |b| && AllDigits(a) && AllDigits(b)
    ensures Le(a, b) <==> Number(a) <= Number(b)
  {
    if |a| > 0 {
      var p := Pow10(|a| - 1);
      var da, db := DigitValue(a[0]), DigitValue(b[0]);
      assert Number(a) == da * p + Number(a[1..]);
      assert Number(b) == db * p + Number(b[1..]);
      if a[0] == b[0] {
        NumberOrder(a[1..], b[1..]);
      } else if a[0] < b[0] {
        LeadDecides(da, db, Number(a[1..]), Number(b[1..]), p);
      } else {
        LeadDecides(db, da, Number(b[1..]), Number(a[1..]), p);
      }
    }
  }

  /** The number with higher part `hi` and lower digit `lo` in base `base`. */
  function Radix(hi: nat, lo: nat, base: nat): nat {
    hi * base + lo
  }

  /** A smaller leading digit gives a smaller number, whatever follows. */
  lemma LeadDecides(d1: nat, d2: nat, r1: nat, r2: nat, p: nat)
    requires d1 < d2 && r1 < p
    ensures d1 * p + r1 < d2 * p + r2
  {
    MulLe(d1 + 1, d2, p);
    assert (d1 + 1) * p == d1 * p + p;
  }

  /** Comparing two concatenations whose first parts have equal length
      compares the first parts, and the second parts on a tie. */
  lemma {:induction false} LeConcat(x: string, y: string, x': string, y': string)
    requires |x| == |x'|
    ensures Le(x + y, x' + y') <==> (x == x' && Le(y, y')) || (x != x' && Le(x, x'))
  {
    if |x| == 0 {
      assert x + y == y && x' + y' == y';
    } else {
      assert (x + y)[0] == x[0] && (x' + y')[0] == x'[0];
      assert (x + y)[1..] == x[1..] + y && (x' + y')[1..] == x'[1..] + y';
      LeConcat(x[1..], y, x'[1..], y');
      assert x == [x[0]] + x[1..] && x' == [x'[0]] + x'[1..];
    }
  }

  /** Mixed-radix comparison: a digit below the base decides only on a tie. */
  lemma RadixOrder(hi1: nat, lo1: nat, hi2: nat, lo2: nat, base: nat)
    requires lo1 < base && lo2 < base
    ensures Radix(hi1, lo1, base) <= Radix(hi2, lo2, base) <==> hi1 < hi2 || (hi1 == hi2 && lo1 <= lo2)
    ensures Radix(hi1, lo1, base) == Radix(hi2, lo2, base) <==> hi1 == hi2 && lo1 == lo2
  {
    if hi1 < hi2 {
      LeadDecides(hi1, hi2, lo1, lo2, base);
    } else if hi2 < hi1 {
      LeadDecides(hi2, hi1, lo2, lo1, base);
    }
  }

  /** The three fields of a lap time of shape `m`:2.`f` are digit strings. */
  lemma ShapedDigits(t: string, m: nat, f: nat)
    requires ShapedAs(t, m, f)
    ensures AllDigits(t[..m]) && AllDigits(t[m + 1..m + 3]) && AllDigits(t[m + 4..])
  {
  }

  /** A lap time of shape `m`:2.`f` is its three fields with the separators. */
  lemma ShapedSplit(t: string, m: nat, f: nat)
    requires ShapedAs(t, m, f)
    ensures t == t[..m] + ([':'] + (t[m + 1..m + 3] + (['.'] + t[m + 4..])))
  {
    assert t[m + 3..] == ['.'] + t[m + 4..];
    assert t[m + 1..] == t[m + 1..m + 3] + t[m + 3..];
    assert t[m..] == [':'] + t[m + 1..];
    assert t == t[..m] + t[m..];
  }

  /** The duration a lap time of shape `m`:2.`f` denotes, in units of
      10^-f seconds. */
  function Duration(t: string, m: nat, f: nat): nat
    requires ShapedAs(t, m, f)
  {
    ShapedDigits(t, m, f);
    var minutes, seconds, fraction := Number(t[..m]), Number(t[m + 1..m + 3]), Number(t[m + 4..]);
    Radix(Radix(minutes, seconds, 60), fraction, Pow10(f))
  }

  function Seconds(t: string, m: nat, f: nat): nat
    requires ShapedAs(t, m, f)
  {
    ShapedDigits(t, m, f);
    Number(t[m + 1..m + 3])
  }

  /** Equal-length digit strings are equal exactly when their numbers are. */
  lemma NumberInjective(a: string, b: string)
    requires |a| == |b| && AllDigits(a) && AllDigits(b)
    ensures a == b <==> Number(a) == Number(b)
  {
    NumberOrder(a, b);
    NumberOrder(b, a);
    if Number(a) == Number(b) { LeAntisymmetric(a, b); }
  }

  /** Text order of two lap times of one shape compares the minutes, then
      the seconds, then the fraction, each as text. */
  lemma TextOrderByFields(a: string, b: string, m: nat, f: nat)
    requires ShapedAs(a, m, f) && ShapedAs(b, m, f)
    ensures Le(a, b) <==>
      (a[..m] != b[..m] && Le(a[..m], b[..m])) ||
      (a[..m] == b[..m] &&
        ((a[m + 1..m + 3] != b[m + 1..m + 3] && Le(a[m + 1..m + 3], b[m + 1..m + 3])) ||
         (a[m + 1..m + 3] == b[m + 1..m + 3] && Le(a[m + 4..], b[m + 4..]))))
  {
    var a1, a2, a3 := a[..m], a[m + 1..m + 3], a[m + 4..];
    var b1, b2, b3 := b[..m], b[m + 1..m + 3], b[m + 4..];
    ShapedSplit(a, m, f);
    ShapedSplit(b, m, f);
    LeConcat(a1, [':'] + (a2 + (['.'] + a3)), b1, [':'] + (b2 + (['.'] + b3)));
    LeConcat([':'], a2 + (['.'] + a3), [':'], b2 + (['.'] + b3));
    LeConcat(a2, ['.'] + a3, b2, ['.'] + b3);
    LeConcat(['.'], a3, ['.'], b3);
  }

  /** Comparing minutes, then seconds below 60, then a fraction below `p`
      is comparing the total durations. */
  lemma LexIsDuration(m1: nat, s1: nat, f1: nat, m2: nat, s2: nat, f2: nat, p: nat)
    requires s1 < 60 && s2 < 60 && f1 < p && f2 < p
    ensures (m1 < m2 || (m1 == m2 && (s1 < s2 || (s1 == s2 && f1 <= f2)))) <==>
            Radix(Radix(m1, s1, 60), f1, p) <= Radix(Radix(m2, s2, 60), f2, p)
  {
    RadixOrder(m1, s1, m2, s2, 60);
    RadixOrder(Radix(m1, s1, 60), f1, Radix(m2, s2, 60), f2, p);
  }

  /** Two lap times of the same width with seconds below 60 are in text
      order exactly when they are in duration order: the assumption that
      makes sorting by text rank by time. */
  lemma FixedWidthOrderIsDurationOrder(a: string, b: string, m: nat, f: nat)
    requires ShapedAs(a, m, f) && ShapedAs(b, m, f)
    requires Seconds(a, m, f) < 60 && Seconds(b, m, f) < 60
    ensures Le(a, b) <==> Duration(a, m, f) <= Duration(b, m, f)
  {
    var a1, a2, a3 := a[..m], a[m + 1..m + 3], a[m + 4..];
    var b1, b2, b3 := b[..m], b[m + 1..m + 3], b[m + 4..];
    ShapedDigits(a, m, f);
    ShapedDigits(b, m, f);
    TextOrderByFields(a, b, m, f);
    NumberOrder(a1, b1); NumberInjective(a1, b1);
    NumberOrder(a2, b2); NumberInjective(a2, b2);
    NumberOrder(a3, b3);
    assert Duration(a, m, f) == Radix(Radix(Number(a1), Number(a2), 60), Number(a3), Pow10(f));
    assert Duration(b, m, f) == Radix(Radix(Number(b1), Number(b2), 60), Number(b3), Pow10(f));
    LexIsDuration(Number(a1), Number(a2), Number(a3), Number(b1), Number(b2), Number(b3), Pow10(f));
  }

  /** Without the fixed width the two orders part: ten minutes sort before
      nine minutes fifty-nine, although the former is the longer lap. */
  lemma MixedWidthBreaksOrder()
    ensures ShapedAs("10:00.00", 2, 2) && ShapedAs("9:59.99", 1, 2)
    ensures Le("10:00.00", "9:59.99")
    ensures Duration("10:00.00", 2, 2) == 60000 && Duration("9:59.99", 1, 2) == 59999
  {
    var a, b := "10:00.00", "9:59.99";
    assert a[..2] == "10" by { assert a[..2][0] == '1' && a[..2][1] == '0'; }
    assert a[3..5] == "00" by { assert a[3..5][0] == '0' && a[3..5][1] == '0'; }
    assert a[6..] == "00" by { assert a[6..][0] == '0' && a[6..][1] == '0'; }
    assert b[..1] == "9" by { assert b[..1][0] == '9'; }
    assert b[2..4] == "59" by { assert b[2..4][0] == '5' && b[2..4][1] == '9'; }
    assert b[5..] == "99" by { assert b[5..][0] == '9' && b[5..][1] == '9'; }
    assert Number("10") == 10 && Number("00") == 0;
    assert Number("9") == 9 && Number("59") == 59 && Number("99") == 99;
  }

  /** Across widths the collation's punctuation weight decides: "1:05.00"
      sorts before "10:00.00" because ':' ranks below '0', which here agrees
      with the durations; code-point order, where ':' follows the digits,
      would rank the two the other way. */
  lemma PunctuationRanksFirst()
    ensures ShapedAs("1:05.00", 1, 2) && ShapedAs("10:00.00", 2, 2)
    ensures Le("1:05.00", "10:00.00") && !Le("10:00.00", "1:05.00")
    ensures Duration("1:05.00", 1, 2) == 6500 && Duration("10:00.00", 2, 2) == 60000
  {
    var a, b := "1:05.00", "10:00.00";
    assert a[..1] == "1" by { assert a[..1][0] == '1'; }
    assert a[2..4] == "05" by { assert a[2..4][0] == '0' && a[2..4][1] == '5'; }
    assert a[5..] == "00" by { assert a[5..][0] == '0' && a[5..][1] == '0'; }
    assert b[..2] == "10" by { assert b[..2][0] == '1' && b[..2][1] == '0'; }
    assert b[3..5] == "00" by { assert b[3..5][0] == '0' && b[3..5][1] == '0'; }
    assert b[6..] == "00" by { assert b[6..][0] == '0' && b[6..][1] == '0'; }
    assert Number("1") == 1 && Number("05") == 5 && Number("10") == 10 && Number("00") == 0;
    assert a[1..] == ":05.00" && b[1..] == "0:00.00";
  }
}

/** The ranking view: one map's records sorted by lap time on a copy, then
    numbered 1, 2, ... by position. */
module Ranking {
  import opened Text
  import opened Seqs
  import opened Laps

  /** The comparator `a.lap_time.localeCompare(b.lap_time)`, read as
      "`a` may stay before `b`" in collation order. */
  predicate NotAfter(a: LapRecord, b: LapRecord) {
    Le(a.lapTime, b.lapTime)
  }

  predicate SortedByLapTime(s: seq<LapRecord>) {
    forall i, j :: 0 <= i < j < |s| ==> NotAfter(s[i], s[j])
  }

  /** Selects the records with lap time `t`: the classes a stable sort keeps in order. */
  function HasLapTime(t: string): LapRecord -> bool {
    (lap: LapRecord) => lap.lapTime == t
  }

  /** Places `x` before the first record it does not come after, so that `x`
      stays ahead of records with an equal lap time. */
  function Insert(x: LapRecord, s: seq<LapRecord>): (r: seq<LapRecord>)
    ensures forall y :: y in r <==> y == x || y in s
  {
    if s == [] || NotAfter(x, s[0]) then [x] + s else [s[0]] + Insert(x, s[1..])
  }

  /** `[...laptimes].sort((a, b) => a.lap_time.localeCompare(b.lap_time))`:
      a stable sort of a copy. Any stable sort yields this same sequence
      (see `StableSortIsUnique`), so the algorithm chosen here is immaterial. */
  function SortByLapTime(s: seq<LapRecord>): (r: seq<LapRecord>)
    ensures forall y :: y in r <==> y in s
  {
    if s == [] then [] else Insert(s[0], SortByLapTime(s[1..]))
  }

  // ---------------------------------------------------------------------
  // Permutation

  lemma {:induction false} InsertPermutes(x: LapRecord, s: seq<LapRecord>)
    ensures multiset(Insert(x, s)) == multiset([x] + s)
  {
    if s != [] && !NotAfter(x, s[0]) {
      InsertPermutes(x, s[1..]);
      assert s == [s[0]] + s[1..];
    }
  }

  lemma {:induction false} SortIsPermutation(s: seq<LapRecord>)
    ensures multiset(SortByLapTime(s)) == multiset(s)
  {
    if s != [] {
      SortIsPermutation(s[1..]);
      InsertPermutes(s[0], SortByLapTime(s[1..]));
      assert s == [s[0]] + s[1..];
    }
  }

  lemma SortKeepsLength(s: seq<LapRecord>)
    ensures |SortByLapTime(s)| == |s|
  {
    SortIsPermutation(s);
    assert |multiset(SortByLapTime(s))| == |multiset(s)|;
  }

  // ---------------------------------------------------------------------
  // Ordering

  lemma {:induction false} InsertSorted(x: LapRecord, s: seq<LapRecord>)
    requires SortedByLapTime(s)
    ensures SortedByLapTime(Insert(x, s))
  {
    if s == [] {
    } else if NotAfter(x, s[0]) {
      forall j | 0 <= j < |s| ensures NotAfter(x, s[j]) {
        if j > 0 { LeTransitive(x.lapTime, s[0].lapTime, s[j].lapTime); }
      }
    } else {
      LeTotal(x.lapTime, s[0].lapTime);
      InsertSorted(x, s[1..]);
      var t := Insert(x, s[1..]);
      InsertPermutes(x, s[1..]);
      forall j | 0 <= j < |t| ensures NotAfter(s[0], t[j]) {
        assert t[j] in multiset([x] + s[1..]);
        assert t[j] in [x] + s[1..];
        if t[j] != x {
          var k :| 0 <= k < |s[1..]| && s[1..][k] == t[j];
          assert s[k + 1] == t[j];
        }
      }
      assert Insert(x, s) == [s[0]] + t;
    }
  }

  lemma {:induction false} SortIsSorted(s: seq<LapRecord>)
    ensures SortedByLapTime(SortByLapTime(s))
  {
    if s != [] {
      SortIsSorted(s[1..]);
      InsertSorted(s[0], SortByLapTime(s[1..]));
    }
  }

  // ---------------------------------------------------------------------
  // Stability

  /** `Insert` never moves `x` past a record with the same lap time. */
  lemma {:induction false} InsertKeepsClasses(x: LapRecord, s: seq<LapRecord>, t: string)
    ensures Filter(Insert(x, s), HasLapTime(t)) == Filter([x] + s, HasLapTime(t))
  {
    if s != [] && !NotAfter(x, s[0]) {
      InsertKeepsClasses(x, s[1..], t);
      LeReflexive(x.lapTime);
      assert x.lapTime != s[0].lapTime;
      assert ([x] + s)[1..] == s;
      assert ([x] + s[1..])[1..] == s[1..];
      assert ([s[0]] + Insert(x, s[1..]))[1..] == Insert(x, s[1..]);
      assert s == [s[0]] + s[1..];
    }
  }

  /** Records with equal lap times keep their input order. */
  lemma {:induction false} SortIsStable(s: seq<LapRecord>, t: string)
    ensures Filter(SortByLapTime(s), HasLapTime(t)) == Filter(s, HasLapTime(t))
  {
    if s != [] {
      SortIsStable(s[1..], t);
      InsertKeepsClasses(s[0], SortByLapTime(s[1..]), t);
      assert ([s[0]] + SortByLapTime(s[1..]))[1..] == SortByLapTime(s[1..]);
    }
  }

  /** The heads of two sorted sequences with the same classes have the same
      lap time: each head's class is found in the other sequence, after its head. */
  lemma SortedHeadsSameLapTime(a: seq<LapRecord>, b: seq<LapRecord>)
    requires SortedByLapTime(a) && SortedByLapTime(b) && a != [] && b != []
    requires forall t :: Filter(a, HasLapTime(t)) == Filter(b, HasLapTime(t))
    ensures a[0].lapTime == b[0].lapTime
  {
    var x, y := a[0], b[0];
    FilterMembership(a, HasLapTime(y.lapTime), y);
    FilterMembership(b, HasLapTime(y.lapTime), y);
    FilterMembership(a, HasLapTime(x.lapTime), x);
    FilterMembership(b, HasLapTime(x.lapTime), x);
    var i :| 0 <= i < |a| && a[i] == y;
    var j :| 0 <= j < |b| && b[j] == x;
    LeReflexive(x.lapTime);
    LeReflexive(y.lapTime);
    assert NotAfter(x, y) && NotAfter(y, x);
    LeAntisymmetric(x.lapTime, y.lapTime);
  }

  /** The heads of two sorted sequences with the same classes are equal: both
      open the class of their common lap time. */
  lemma SortedHeadsEqual(a: seq<LapRecord>, b: seq<LapRecord>)
    requires SortedByLapTime(a) && SortedByLapTime(b) && a != [] && b != []
    requires forall t :: Filter(a, HasLapTime(t)) == Filter(b, HasLapTime(t))
    ensures a[0] == b[0]
  {
    SortedHeadsSameLapTime(a, b);
    var k := a[0].lapTime;
    assert Filter(a, HasLapTime(k)) == [a[0]] + Filter(a[1..], HasLapTime(k));
    assert Filter(b, HasLapTime(k)) == [b[0]] + Filter(b[1..], HasLapTime(k));
    assert Filter(a, HasLapTime(k)) == Filter(b, HasLapTime(k));
    assert ([a[0]] + Filter(a[1..], HasLapTime(k)))[0] == a[0];
  }

  /** Two sorted sequences that agree on every class of equal lap times are equal. */
  lemma {:induction false} SortedSameClassesEqual(a: seq<LapRecord>, b: seq<LapRecord>)
    requires SortedByLapTime(a) && SortedByLapTime(b)
    requires forall t :: Filter(a, HasLapTime(t)) == Filter(b, HasLapTime(t))
    ensures a == b
    decreases |a|
  {
    if a == [] || b == [] {
      if a != [] || b != [] {
        var x := if a != [] then a[0] else b[0];
        FilterMembership(a, HasLapTime(x.lapTime), x);
        FilterMembership(b, HasLapTime(x.lapTime), x);
      }
    } else {
      SortedHeadsEqual(a, b);
      var x, k := a[0], a[0].lapTime;
      assert Filter(a, HasLapTime(k)) == [x] + Filter(a[1..], HasLapTime(k));
      assert Filter(b, HasLapTime(k)) == [x] + Filter(b[1..], HasLapTime(k));
      forall t ensures Filter(a[1..], HasLapTime(t)) == Filter(b[1..], HasLapTime(t)) {
        if t == k {
          assert ([x] + Filter(a[1..], HasLapTime(k)))[1..] == Filter(a[1..], HasLapTime(k));
          assert ([x] + Filter(b[1..], HasLapTime(k)))[1..] == Filter(b[1..], HasLapTime(k));
        } else {
          assert Filter(a, HasLapTime(t)) == Filter(a[1..], HasLapTime(t));
          assert Filter(b, HasLapTime(t)) == Filter(b[1..], HasLapTime(t));
        }
      }
      SortedSameClassesEqual(a[1..], b[1..]);
      assert a == [x] + a[1..] && b == [x] + b[1..];
    }
  }

  /** A sorted rearrangement that keeps equal lap times in input order is
      exactly `SortByLapTime`: the result of any stable sort. */
  lemma StableSortIsUnique(s: seq<LapRecord>, r: seq<LapRecord>)
    requires SortedByLapTime(r)
    requires forall t :: Filter(r, HasLapTime(t)) == Filter(s, HasLapTime(t))
    ensures r == SortByLapTime(s)
  {
    SortIsSorted(s);
    forall t ensures Filter(r, HasLapTime(t)) == Filter(SortByLapTime(s), HasLapTime(t)) {
      SortIsStable(s, t);
    }
    SortedSameClassesEqual(r, SortByLapTime(s));
  }

  // ---------------------------------------------------------------------
  // Rows

  /** One table row: rank, user name, the lap time shown as a link to the
      screenshot, and the upload time as displayed. */
  datatype Row = Row(rank: nat, username: string, lapTime: string, href: string, uploadedAt: string)

  /** The cells of the row for `lap` at 1-based position `rank`; `formatKst`
      is the Korea-time date formatting of the browser. */
  function RowOf(rank: nat, lap: LapRecord, formatKst: string -> string): Row {
    Row(rank, lap.username, lap.lapTime, lap.screenshotUrl, formatKst(lap.uploadedAt))
  }

  /** `sortedLaptimes.map((lap, index) => <tr>...{index + 1}...</tr>)`. */
  function RankingTable(laps: seq<LapRecord>, formatKst: string -> string): (rows: seq<Row>)
    ensures |rows| == |laps| == |SortByLapTime(laps)|
    ensures forall i :: 0 <= i < |rows| ==> rows[i].rank == i + 1
    ensures forall i :: 0 <= i < |rows| ==> rows[i] == RowOf(i + 1, SortByLapTime(laps)[i], formatKst)
    ensures forall i, j :: 0 <= i < j < |rows| ==> Le(rows[i].lapTime, rows[j].lapTime)
  {
    var sorted := SortByLapTime(laps);
    SortKeepsLength(laps);
    SortIsSorted(laps);
    seq(|sorted|, i requires 0 <= i < |sorted| => RowOf(i + 1, sorted[i], formatKst))
  }

  /** Each record of the map appears in the table as a row showing its own
      user, lap time and screenshot link, at that row's rank. */
  lemma RankingShowsEveryRecord(laps: seq<LapRecord>, formatKst: string -> string, lap: LapRecord)
    requires lap in laps
    ensures exists i :: 0 <= i < |RankingTable(laps, formatKst)| &&
                        RankingTable(laps, formatKst)[i] == RowOf(i + 1, lap, formatKst)
  {
    var rows, sorted := RankingTable(laps, formatKst), SortByLapTime(laps);
    SortIsPermutation(laps);
    assert lap in multiset(laps);
    var i :| 0 <= i < |sorted| && sorted[i] == lap;
    assert rows[i] == RowOf(i + 1, lap, formatKst);
  }

  /** Each row of the table shows a record of the map: none is invented. */
  lemma RankingShowsOnlyRecords(laps: seq<LapRecord>, formatKst: string -> string, i: nat)
    requires i < |RankingTable(laps, formatKst)|
    ensures exists lap :: lap in laps && RankingTable(laps, formatKst)[i] == RowOf(i + 1, lap, formatKst)
  {
    var rows, sorted := RankingTable(laps, formatKst), SortByLapTime(laps);
    SortIsPermutation(laps);
    assert sorted[i] in multiset(sorted);
    assert sorted[i] in laps;
    assert rows[i] == RowOf(i + 1, sorted[i], formatKst);
  }
}

/** The expressions `App` derives from its state on every render: the map
    catalog, its search filter and the records handed to the ranking view. */
module MapCatalog {
  import opened Text
  import opened Seqs
  import opened Laps

  /** The literal that always heads the catalog. */
  const AllMaps: string := "All"

  function MapNames(laps: seq<LapRecord>): (names: seq<string>)
    ensures |names| == |laps|
    ensures forall i :: 0 <= i < |laps| ==> names[i] == laps[i].mapName
  {
    seq(|laps|, i requires 0 <= i < |laps| => laps[i].mapName)
  }

  /** `['All', ...new Set(laptimes.map(lap => lap.map_name))]`. The literal is
      not de-duplicated against a map that is itself called "All". */
  function UniqueMaps(laps: seq<LapRecord>): (r: seq<string>)
    ensures |r| >= 1 && r[0] == AllMaps
    ensures forall i :: 0 <= i < |laps| ==> laps[i].mapName in r[1..]
    ensures forall k :: 1 <= k < |r| ==> exists i :: 0 <= i < |laps| && laps[i].mapName == r[k]
    ensures NoDuplicates(r[1..])
  {
    var names := MapNames(laps);
    var r := [AllMaps] + Distinct(names);
    assert r[1..] == Distinct(names);
    assert forall k :: 1 <= k < |r| ==> r[k] in names;
    r
  }

  /** The catalog after "All" lists map names in the order they are first
      seen in the records. */
  lemma UniqueMapsFirstSeen(laps: seq<LapRecord>)
    ensures forall i, j :: 1 <= i < j < |UniqueMaps(laps)| ==>
      FirstIndex(MapNames(laps), UniqueMaps(laps)[i]) < FirstIndex(MapNames(laps), UniqueMaps(laps)[j])
  {
    var names := MapNames(laps);
    DistinctFirstSeen(names);
    var u := UniqueMaps(laps);
    assert forall k :: 1 <= k < |u| ==> u[k] == Distinct(names)[k - 1];
  }

  /** The search test of one catalog entry: case-insensitive substring. */
  function SearchMatches(term: string): string -> bool {
    (m: string) => Contains(Lower(m), Lower(term))
  }

  /** `uniqueMaps.filter(map => map.toLowerCase().includes(searchTerm.toLowerCase()))`. */
  function FilteredMaps(laps: seq<LapRecord>, term: string): (r: seq<string>)
    ensures |r| <= |UniqueMaps(laps)|
    ensures forall m :: m in r <==> m in UniqueMaps(laps) && Contains(Lower(m), Lower(term))
  {
    var r := Filter(UniqueMaps(laps), SearchMatches(term));
    assert forall m :: m in r <==> m in UniqueMaps(laps) && Contains(Lower(m), Lower(term)) by {
      forall m ensures m in r <==> m in UniqueMaps(laps) && Contains(Lower(m), Lower(term)) {
        FilterMembership(UniqueMaps(laps), SearchMatches(term), m);
      }
    }
    r
  }

  /** The filtered catalog is a subsequence of the catalog and keeps exactly
      the entries (with their multiplicity) that match the search term. */
  lemma FilteredMapsSpec(laps: seq<LapRecord>, term: string)
    ensures IsSubseq(FilteredMaps(laps, term), UniqueMaps(laps))
    ensures forall m :: multiset(FilteredMaps(laps, term))[m] ==
                        (if Contains(Lower(m), Lower(term)) then multiset(UniqueMaps(laps))[m] else 0)
  {
    FilterIsSubseq(UniqueMaps(laps), SearchMatches(term));
    forall m ensures multiset(FilteredMaps(laps, term))[m] ==
      if Contains(Lower(m), Lower(term)) then multiset(UniqueMaps(laps))[m] else 0
    {
      FilterCount(UniqueMaps(laps), SearchMatches(term), m);
    }
  }

  /** An empty search shows the whole catalog. */
  lemma EmptySearchKeepsAll(laps: seq<LapRecord>)
    ensures FilteredMaps(laps, "") == UniqueMaps(laps)
  {
    var u := UniqueMaps(laps);
    forall k | 0 <= k < |u| ensures SearchMatches("")(u[k]) {
      EmptyIsContained(Lower(u[k]));
    }
    FilterAll(u, SearchMatches(""));
  }

  /** Typing more (a search term extended to a superstring) never adds entries. */
  lemma NarrowingNeverAdds(laps: seq<LapRecord>, term: string, longer: string)
    requires Contains(longer, term)
    ensures IsSubseq(FilteredMaps(laps, longer), FilteredMaps(laps, term))
  {
    var u := UniqueMaps(laps);
    forall k | 0 <= k < |u| && SearchMatches(longer)(u[k]) ensures SearchMatches(term)(u[k]) {
      LowerKeepsContains(longer, term);
      ContainsTransitive(Lower(u[k]), Lower(longer), Lower(term));
    }
    FilterStronger(u, SearchMatches(term), SearchMatches(longer));
  }

  /** The equality test of the leaderboard filter (case-sensitive). */
  function OnMap(selected: string): LapRecord -> bool {
    (lap: LapRecord) => lap.mapName == selected
  }

  /** `laptimes.filter(lap => lap.map_name === selectedMap)`. */
  function MapRecords(laps: seq<LapRecord>, selected: string): (r: seq<LapRecord>)
    ensures |r| <= |laps|
    ensures forall lap :: lap in r <==> lap in laps && lap.mapName == selected
  {
    var r := Filter(laps, OnMap(selected));
    assert forall lap :: lap in r <==> lap in laps && lap.mapName == selected by {
      forall lap ensures lap in r <==> lap in laps && lap.mapName == selected {
        FilterMembership(laps, OnMap(selected), lap);
      }
    }
    r
  }

  /** The records handed to the ranking view are exactly those on the selected
      map, every copy of each, in their original order. */
  lemma MapRecordsSpec(laps: seq<LapRecord>, selected: string)
    ensures IsSubseq(MapRecords(laps, selected), laps)
    ensures forall lap :: multiset(MapRecords(laps, selected))[lap] ==
                          (if lap.mapName == selected then multiset(laps)[lap] else 0)
  {
    FilterIsSubseq(laps, OnMap(selected));
    forall lap ensures multiset(MapRecords(laps, selected))[lap] ==
      if lap.mapName == selected then multiset(laps)[lap] else 0
    {
      FilterCount(laps, OnMap(selected), lap);
    }
  }

  /** Choosing the "All" entry ranks only records whose map is literally
      named "All": with no such record the leaderboard is empty. */
  lemma AllEntryShowsOnlyMapNamedAll(laps: seq<LapRecord>)
    requires forall i :: 0 <= i < |laps| ==> laps[i].mapName != AllMaps
    ensures MapRecords(laps, AllMaps) == []
  {
    FilterNone(laps, OnMap(AllMaps));
  }

  /** While the records held are those of a fetch filtered to one map, the
      catalog offers only "All" and that map. Going back fetches again with
      an empty filter (`Wiring.BackAndLoad`), whose answer restores the full
      catalog. */
  lemma SingleMapCatalog(laps: seq<LapRecord>, name: string)
    requires |laps| > 0
    requires forall i :: 0 <= i < |laps| ==> laps[i].mapName == name
    ensures UniqueMaps(laps) == [AllMaps, name]
  {
    DistinctConstant(MapNames(laps), name);
  }
}

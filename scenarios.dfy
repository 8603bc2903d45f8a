/** Worked cases of the page's behaviour on small concrete inputs. */
module Scenarios {
  import opened Text
  import opened Wrappers
  import opened Laps
  import MapCatalog
  import Seqs
  import Ranking
  import UploadForm
  import LapTimeScan

  const Alice := LapRecord("alice", "MapA", "01:23.456", "https://s3/a.png", "t1")
  const Bob := LapRecord("bob", "MapA", "00:59.999", "https://s3/b.png", "t2")
  const Carol := LapRecord("carol", "MapB", "00:10.000", "https://s3/c.png", "t3")

  /** The catalog lists "All" and then the maps in first-seen order. */
  lemma CatalogScenario()
    ensures MapCatalog.UniqueMaps([Alice, Bob, Carol]) == ["All", "MapA", "MapB"]
  {
    var names := MapCatalog.MapNames([Alice, Bob, Carol]);
    assert names == ["MapA", "MapA", "MapB"];
    assert names[..2] == ["MapA", "MapA"];
    Seqs.DistinctConstant(names[..2], "MapA");
    assert Seqs.Distinct(names) == ["MapA", "MapB"];
  }

  lemma LowerMapB()
    ensures Lower("MapB") == "mapb"
  {
    var l := Lower("MapB");
    assert l[0] == 'm' && l[1] == 'a' && l[2] == 'p' && l[3] == 'b';
  }

  lemma LowerMapA()
    ensures Lower("MapA") == "mapa"
  {
    var l := Lower("MapA");
    assert l[0] == 'm' && l[1] == 'a' && l[2] == 'p' && l[3] == 'a';
  }

  lemma LowerSearchTerm()
    ensures Lower("mapb") == "mapb"
  {
    var l := Lower("mapb");
    assert l[0] == 'm' && l[1] == 'a' && l[2] == 'p' && l[3] == 'b';
  }

  /** Which catalog entries the search "mapb" keeps. */
  lemma SearchVerdicts()
    ensures MapCatalog.SearchMatches("mapb")("MapB")
    ensures !MapCatalog.SearchMatches("mapb")("MapA")
    ensures !MapCatalog.SearchMatches("mapb")("All")
  {
    LowerMapA(); LowerMapB(); LowerSearchTerm();
    assert OccursAt("mapb", "mapb", 0);
    assert "mapa"[0..4] != "mapb" by { assert "mapa"[0..4][3] != "mapb"[3]; }
    assert forall i :: 0 <= i <= 4 && OccursAt("mapa", "mapb", i) ==> i == 0;
    assert |Lower("All")| == 3;
  }

  /** Searching "mapb" ignores case and keeps only MapB. */
  lemma SearchScenario()
    ensures MapCatalog.FilteredMaps([Alice, Bob, Carol], "mapb") == ["MapB"]
  {
    CatalogScenario();
    SearchVerdicts();
    var matches := MapCatalog.SearchMatches("mapb");
    assert ["All", "MapA", "MapB"][1..] == ["MapA", "MapB"];
    assert ["MapA", "MapB"][1..] == ["MapB"];
    assert ["MapB"][1..] == [];
    assert Seqs.Filter(["MapB"], matches) == ["MapB"];
    assert Seqs.Filter(["MapA", "MapB"], matches) == ["MapB"];
  }

  /** The MapA leaderboard ranks bob's faster lap first. */
  lemma LeaderboardScenario(formatKst: string -> string)
    ensures
      var rows := Ranking.RankingTable(MapCatalog.MapRecords([Alice, Bob, Carol], "MapA"), formatKst);
      |rows| == 2 &&
      rows[0].rank == 1 && rows[0].username == "bob" && rows[0].lapTime == "00:59.999" &&
      rows[1].rank == 2 && rows[1].username == "alice" && rows[1].lapTime == "01:23.456"
  {
    var onMapA := MapCatalog.OnMap("MapA");
    assert [Alice, Bob, Carol][1..] == [Bob, Carol];
    assert [Bob, Carol][1..] == [Carol];
    assert [Carol][1..] == [];
    assert Seqs.Filter([Carol], onMapA) == [];
    assert Seqs.Filter([Bob, Carol], onMapA) == [Bob];
    var onA := MapCatalog.MapRecords([Alice, Bob, Carol], "MapA");
    assert onA == [Alice, Bob];
    assert [Alice, Bob][1..] == [Bob];
    assert [Bob][1..] == [];
    assert Ranking.SortByLapTime([Bob]) == [Bob];
    assert "01:23.456"[1..][0] == '1' && "00:59.999"[1..][0] == '0';
    assert !Le("01:23.456"[1..], "00:59.999"[1..]);
    assert !Le("01:23.456", "00:59.999");
    assert Ranking.Insert(Alice, []) == [Alice];
    assert Ranking.Insert(Alice, [Bob]) == [Bob, Alice];
    assert Ranking.SortByLapTime(onA) == [Bob, Alice];
  }

  /** A successful upload's message names the user and the map the server
      read, and the refresh callback runs once. */
  lemma UploadSuccessScenario()
    ensures
      var outcome := UploadForm.Replied(true, UploadForm.Reply("dave", "MapC", ""));
      UploadForm.Succeeded(outcome) &&
      Contains(UploadForm.OutcomeMessage(outcome), "dave") &&
      Contains(UploadForm.OutcomeMessage(outcome), "MapC")
  {
    UploadForm.SuccessMessageNames("dave", "MapC");
  }

  /** A rejected upload shows the server's error and does not refresh. */
  lemma UploadFailureScenario()
    ensures
      var outcome := UploadForm.Replied(false, UploadForm.Reply("", "", "no lap time detected"));
      !UploadForm.Succeeded(outcome) &&
      UploadForm.OutcomeMessage(outcome) == UploadForm.ErrorMessage("no lap time detected") &&
      Contains(UploadForm.OutcomeMessage(outcome), "no lap time detected")
  {
    var reason := "no lap time detected";
    ContainsMiddle("에러: ", reason, "");
    assert "에러: " + reason + "" == UploadForm.ErrorMessage(reason);
  }

  /** The lap time after the anchor is found, its fraction taken in full. */
  lemma FindLapTimeScenario()
    ensures LapTimeScan.FindLapTime("최단 시간\n1:23.456") == Some("1:23.456")
  {
    var text := "최단 시간\n1:23.456";
    assert LapTimeScan.FirstOccurrence(text, LapTimeScan.Anchor, 0) == Some(0);
    assert text[5] == '\n' && text[6] == '1' && text[7] == ':';
    assert text[5..13][0] == '\n' && text[5..12][0] == '\n';
    assert LapTimeScan.MatchAt(text, 5).None?;
    assert LapTimeScan.MatchWith(text, 6, 2).None?;
    assert text[6..13] == "1:23.45";
    assert LapTimeScan.ShapedAs(text[6..13], 1, 2);
    assert Text.IsDigit(text[13]);
    assert LapTimeScan.MatchWith(text, 6, 1) == Some(8);
    assert LapTimeScan.FindFrom(text, 6) == Some(6);
    assert LapTimeScan.FindFrom(text, 5) == Some(6);
    assert text[6..14] == "1:23.456";
  }
}

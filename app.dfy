/** The `App` component's state and its handlers: the held records, the
    loading flag, the selected map ("" while browsing the map list) and the
    search term. */
module AppState {
  import opened Laps
  import MapCatalog

  /** What one `fetch` of the records endpoint came to. */
  datatype FetchResult =
    | Fetched(data: seq<LapRecord>)   // `response.ok`, and the body parsed
    | NotOk(status: int)              // `!response.ok`: the handler throws
    | Failed(reason: string)          // `fetch` or `response.json()` rejected

  /** What is rendered below the upload form. */
  datatype Screen =
    | MapList(entries: seq<string>)
    | Leaderboard(selected: string, records: seq<LapRecord>)

  class App {
    /** `process.env.REACT_APP_API_URL`, fixed when the page loads. */
    const apiUrl: string
    var laptimes: seq<LapRecord>
    var isLoading: bool
    var selectedMap: string
    var searchTerm: string

    /** The `useState` initial values. */
    constructor (apiUrl: string)
      ensures this.apiUrl == apiUrl
      ensures laptimes == [] && !isLoading && selectedMap == "" && searchTerm == ""
    {
      this.apiUrl := apiUrl;
      laptimes, isLoading, selectedMap, searchTerm := [], false, "", "";
    }

    /** `{selectedMap ? <RankingTable .../> : <div className="map-selection">...}`:
        the ranking of the selected map's records, or the filtered map list
        when no map is selected. */
    function View(): (s: Screen)
      reads this
      ensures s.MapList? <==> selectedMap == ""
      ensures s.MapList? ==> s.entries == MapCatalog.FilteredMaps(laptimes, searchTerm)
      ensures s.Leaderboard? ==>
        s.selected == selectedMap && s.records == MapCatalog.MapRecords(laptimes, selectedMap)
    {
      if selectedMap != "" then Leaderboard(selectedMap, MapCatalog.MapRecords(laptimes, selectedMap))
      else MapList(MapCatalog.FilteredMaps(laptimes, searchTerm))
    }

    /** A map button's `onClick={() => setSelectedMap(map)}`. */
    method SelectMap(name: string)
      modifies this`selectedMap
      ensures selectedMap == name
      ensures View().Leaderboard? <==> name != ""
    {
      selectedMap := name;
    }

    /** The ranking view's `onBack={() => setSelectedMap('')}`. */
    method Back()
      modifies this`selectedMap
      ensures selectedMap == ""
      ensures View() == MapList(MapCatalog.FilteredMaps(laptimes, searchTerm))
    {
      selectedMap := "";
    }

    /** The search box's `onChange={(e) => setSearchTerm(e.target.value)}`. */
    method SetSearchTerm(term: string)
      modifies this`searchTerm
      ensures searchTerm == term
    {
      searchTerm := term;
    }

    /** `fetchLaptimes` up to its `await`: sets the loading flag and issues
        the request, whose URL carries the selected map as `map`. */
    method StartFetch() returns (url: string)
      modifies this`isLoading
      ensures isLoading
      ensures url == apiUrl + "/api/laptimes?map=" + selectedMap
    {
      isLoading := true;
      url := apiUrl + "/api/laptimes?map=" + selectedMap;
    }

    /** `fetchLaptimes` after its `await`: a good response replaces the records
        wholesale, any failure keeps the old ones; either way loading ends. */
    method FinishFetch(result: FetchResult)
      modifies this`laptimes, this`isLoading
      ensures !isLoading
      ensures result.Fetched? ==> laptimes == result.data
      ensures !result.Fetched? ==> laptimes == old(laptimes)
    {
      if result.Fetched? {
        laptimes := result.data;
      }
      isLoading := false;
    }

    /** The whole of `fetchLaptimes`, when no other event comes between the
        request and its answer. */
    method FetchLaptimes(result: FetchResult) returns (url: string)
      modifies this`laptimes, this`isLoading
      ensures url == apiUrl + "/api/laptimes?map=" + selectedMap
      ensures !isLoading
      ensures laptimes == if result.Fetched? then result.data else old(laptimes)
    {
      url := StartFetch();
      FinishFetch(result);
    }
  }
}

/** How the page's parts call one another: the upload form's success
    callback is the app's `fetchLaptimes`, selecting a map or going back
    re-runs it (the effect on `selectedMap`), and its `map` parameter is what the records
    endpoint filters on. */
module Wiring {
  import opened Laps
  import opened Wrappers
  import MapCatalog
  import AppState
  import UploadForm
  import Backend

  /** One submit of the upload form followed, when the upload succeeded, by
      the app's refresh with the given answer. Without a chosen file or with a
      failed upload no request for records is made and the records stay. */
  method UploadThenRefresh(app: AppState.App, form: UploadForm.Form,
                           upload: UploadForm.UploadOutcome, refresh: AppState.FetchResult)
    returns (request: Option<string>)
    modifies app`laptimes, app`isLoading, form`message
    ensures request.Some? <==> form.file.Some? && UploadForm.Succeeded(upload)
    ensures request.Some? ==> request.value == app.apiUrl + "/api/laptimes?map=" + app.selectedMap
    ensures request.Some? && refresh.Fetched? ==> app.laptimes == refresh.data
    ensures request.None? || !refresh.Fetched? ==> app.laptimes == old(app.laptimes)
    ensures request.None? ==> app.isLoading == old(app.isLoading)
    ensures request.Some? ==> !app.isLoading
    ensures form.message == if form.file.None? then UploadForm.NoFileMessage else UploadForm.OutcomeMessage(upload)
  {
    var sent, callbacks := form.HandleSubmit(upload);
    request := None;
    if callbacks == 1 {
      var url := app.FetchLaptimes(refresh);
      request := Some(url);
    }
  }

  /** A map button's click, made from the map list: the selection becomes
      the clicked name, and the effect that watches it fetches that map's
      records only when the selection changed. A name that is already the
      selection, the empty one, makes React skip the render and the effect,
      so no request is made and the records stay. */
  method SelectAndLoad(app: AppState.App, name: string, result: AppState.FetchResult)
    returns (request: Option<string>)
    requires app.selectedMap == ""
    modifies app`selectedMap, app`laptimes, app`isLoading
    ensures app.selectedMap == name
    ensures request.Some? <==> name != ""
    ensures request.Some? ==> request.value == app.apiUrl + "/api/laptimes?map=" + name
    ensures request.Some? ==> !app.isLoading
    ensures request.Some? ==> app.laptimes == (if result.Fetched? then result.data else old(app.laptimes))
    ensures request.None? ==> app.laptimes == old(app.laptimes) && app.isLoading == old(app.isLoading)
    ensures app.View().Leaderboard? <==> name != ""
  {
    var changed := app.selectedMap != name;
    app.SelectMap(name);
    request := None;
    if changed {
      var url := app.FetchLaptimes(result);
      request := Some(url);
    }
  }

  /** The ranking view's back button, shown only while a map is selected:
      the selection is cleared, and the
      effect that watches it fetches again with an empty `map`, which the
      records endpoint reads as "no filter" (`Backend.BuildQuery`), so a good
      answer brings back the whole catalog behind the map list. */
  method BackAndLoad(app: AppState.App, result: AppState.FetchResult)
    returns (url: string)
    requires app.selectedMap != ""
    modifies app`selectedMap, app`laptimes, app`isLoading
    ensures app.selectedMap == ""
    ensures url == app.apiUrl + "/api/laptimes?map="
    ensures app.laptimes == if result.Fetched? then result.data else old(app.laptimes)
    ensures !app.isLoading
    ensures app.View() == AppState.MapList(MapCatalog.FilteredMaps(app.laptimes, app.searchTerm))
  {
    app.Back();
    url := app.FetchLaptimes(result);
    assert app.apiUrl + "/api/laptimes?map=" + "" == app.apiUrl + "/api/laptimes?map=";
  }

  /** The "All" entry across the two tiers: its request asks the endpoint
      for every record, yet the leaderboard keeps only records whose map is
      literally named "All", so with none of those it ranks nothing. */
  lemma AllEntryAcrossTiers(laps: seq<LapRecord>)
    requires forall i :: 0 <= i < |laps| ==> laps[i].mapName != MapCatalog.AllMaps
    ensures Backend.BuildQuery(Some(MapCatalog.AllMaps)) == map[]
    ensures MapCatalog.MapRecords(laps, MapCatalog.AllMaps) == []
  {
    MapCatalog.AllEntryShowsOnlyMapNamedAll(laps);
  }
}

# laptime-tracker, modelled in Dafny

laptime-tracker is a lap-time leaderboard. A player uploads a screenshot of a
race result. The Flask backend stores the image in S3 and reads the text with
Google Vision. It picks out the map name, the user name and the lap time, and
stores a record in MongoDB. The React frontend lists the maps it knows. After
the player picks a map, it ranks that map's records by lap time.

This project models the decision logic of the four files at the core of the
system, and proves what each of them promises:

- `frontend/src/App.js` (module `AppState`, class `App`; derived lists in
  `MapCatalog`):
  - the map catalog, which is `'All'` followed by the distinct map names in
    first-seen order;
  - the case-insensitive search over the catalog;
  - the leaderboard's input filter;
  - the selection state (`''` means browsing);
  - `fetchLaptimes`, which replaces the held records wholesale on success
    and keeps them on failure.
- `frontend/src/components/RankingTable.js` (module `Ranking`): the
  non-mutating stable sort by `lap_time`, and the rows numbered 1..N. Module
  `LapTimeOrder` shows when the collation order of lap times is duration
  order.
- `frontend/src/components/UploadForm.js` (module `UploadForm`, class
  `Form`):
  - the chosen file and the status message;
  - the submit guard;
  - the in-progress message;
  - the outcome message;
  - the one success callback.
- `run.py` (modules `Backend` and `LapTimeScan`):
  - `allowed_file`;
  - the order of the upload endpoint's checks, and which outside services it
    calls before each early return;
  - field extraction with its fallbacks;
  - the lap-time regular expression;
  - the stored and returned record;
  - the listing endpoint's query;
  - its in-place loop that turns datetimes into ISO text.

The outside services are inputs to the model. These are S3, Vision, MongoDB's
`insert_one` and `find`, werkzeug's `secure_filename`, and the clock. The
upload handler also reports the service calls it makes, in order, so the order
of the checks can be stated. Module `Wiring` connects the parts:
- the upload form's success callback is the app's `fetchLaptimes`;
- a map click that changes the selection, and the way back to the map
  list, each re-run the fetch;
- the `map` parameter of that fetch is what the listing endpoint filters on.

Module `Scenarios` works through small concrete cases.

Notes on the code's behaviour:

- Requests per map: the frontend asks for `?map=<selectedMap>`, so the
  backend filters by map. The frontend then filters the answer again.
  Fetching everything once and filtering only on the client is not what the
  code does.
- The catalog contains the literal `'All'`. Choosing it leaves
  `selectedMap == 'All'`, and the leaderboard then keeps only records whose
  map is literally named "All", which is normally none. The backend treats
  `map=All` as "no filter" (`Wiring.AllEntryAcrossTiers`). `'All'` is also
  not merged with a map that is itself named "All".
- A successful upload answers 201. The frontend accepts any `response.ok`.
- The upload form has no explicit status field, only its message. The
  states Idle, InFlight, Succeeded and Failed are read off the message and
  the callback count.

## Model

| member | source | states |
|---|---|---|
| Text.Lower | frontend/src/App.js:17 | same length; each ASCII capital becomes its small letter and every other character is kept |
| Text.LowerKeepsContains | frontend/src/App.js:17 | if the needle occurs in the haystack, its lowercased form occurs in the lowercased haystack |
| Text.ContainsTransitive | frontend/src/App.js:17 | a substring of a substring is a substring |
| Text.Strip | run.py:99-101 | the result is a slice of the input with only whitespace cut off on either side; a non-empty result starts and ends with non-whitespace; the result is empty only when the input is all whitespace |
| Text.Weight | frontend/src/components/RankingTable.js:7 | exactly ':' and '.' weigh below zero, ':' below '.', so both rank below the digits; every other character keeps its code-point rank |
| Text.WeightInjective | frontend/src/components/RankingTable.js:7 | no two characters share a weight |
| Text.LeReflexive | frontend/src/components/RankingTable.js:7 | the lap-time comparator puts every string at or before itself |
| Text.LeAntisymmetric | frontend/src/components/RankingTable.js:7 | two strings each at or before the other are equal |
| Text.LeTransitive | frontend/src/components/RankingTable.js:7 | the comparator is transitive |
| Text.LeTotal | frontend/src/components/RankingTable.js:7 | any two strings are comparable |
| Seqs.Distinct | frontend/src/App.js:15 | every input element appears, only input elements appear, and none appears twice |
| Seqs.DistinctFirstSeen | frontend/src/App.js:15 | distinct elements come in the order of their first occurrence |
| Seqs.DistinctConstant | frontend/src/App.js:15 | a non-empty run of one repeated value has that value as its only distinct element |
| Seqs.FilterIsSubseq | frontend/src/App.js:16-18 | a filter result is a subsequence of its input |
| Seqs.FilterCount | frontend/src/App.js:16-18 | a filter keeps each satisfying element with its full multiplicity and drops every other element |
| Seqs.FilterStronger | frontend/src/App.js:16-18 | a stronger predicate selects a subsequence of what a weaker one selects |
| MapCatalog.UniqueMaps | frontend/src/App.js:15 | the catalog starts with "All"; after it come every record's map name and only records' map names, each once |
| MapCatalog.UniqueMapsFirstSeen | frontend/src/App.js:15 | after "All", map names are in first-seen order of the records |
| MapCatalog.SingleMapCatalog | frontend/src/App.js:15 | records that all belong to one map give the catalog ["All", that map] |
| MapCatalog.FilteredMaps | frontend/src/App.js:16-18 | an entry is shown exactly when it is in the catalog and its lowercased name contains the lowercased term; never more entries than the catalog (order and multiplicity: `MapCatalog.FilteredMapsSpec`) |
| MapCatalog.FilteredMapsSpec | frontend/src/App.js:16-18 | the filtered catalog is a subsequence of the catalog and keeps exactly the entries whose lowercased name contains the lowercased term |
| MapCatalog.EmptySearchKeepsAll | frontend/src/App.js:16-18 | an empty search term shows the whole catalog |
| MapCatalog.NarrowingNeverAdds | frontend/src/App.js:16-18 | a term that contains the old term gives a subsequence of the old result |
| MapCatalog.MapRecords | frontend/src/App.js:58 | a record is handed to the leaderboard exactly when it is held and its map equals the selection (order and multiplicity: `MapCatalog.MapRecordsSpec`) |
| MapCatalog.MapRecordsSpec | frontend/src/App.js:58 | the leaderboard gets every copy of each record whose map equals the selection (case-sensitive) and nothing else, in input order |
| MapCatalog.AllEntryShowsOnlyMapNamedAll | frontend/src/App.js:58 | selecting "All" gives an empty leaderboard when no map is literally named "All" |
| Ranking.SortByLapTime | frontend/src/components/RankingTable.js:7 | the sorted copy holds exactly the input's records (permutation, order and stability: `Ranking.SortIsPermutation`, `Ranking.SortIsSorted`, `Ranking.SortIsStable`, `Ranking.StableSortIsUnique`) |
| Ranking.InsertPermutes | frontend/src/components/RankingTable.js:7 | inserting adds exactly the one element |
| Ranking.SortIsPermutation | frontend/src/components/RankingTable.js:7 | the sorted copy is a permutation of the input |
| Ranking.SortKeepsLength | frontend/src/components/RankingTable.js:7 | the sorted copy has the input's length |
| Ranking.InsertSorted | frontend/src/components/RankingTable.js:7 | inserting into a sorted sequence keeps it sorted |
| Ranking.SortIsSorted | frontend/src/components/RankingTable.js:7 | the sorted copy is non-decreasing in lap time |
| Ranking.InsertKeepsClasses | frontend/src/components/RankingTable.js:7 | inserting never moves a record past another record with the same lap time |
| Ranking.SortIsStable | frontend/src/components/RankingTable.js:7 | records with equal lap times keep their input order |
| Ranking.SortedHeadsSameLapTime | frontend/src/components/RankingTable.js:7 | the first records of two sorted sequences with the same records per lap time have the same lap time |
| Ranking.SortedHeadsEqual | frontend/src/components/RankingTable.js:7 | the first records of two such sequences are the same record |
| Ranking.SortedSameClassesEqual | frontend/src/components/RankingTable.js:7 | two sorted sequences with the same subsequence for every lap time are equal |
| Ranking.StableSortIsUnique | frontend/src/components/RankingTable.js:7 | every sorted rearrangement that keeps equal lap times in input order is this sort's result, so the choice of stable algorithm is immaterial |
| Ranking.RankingTable | frontend/src/components/RankingTable.js:25-35 | one row per record; row i has rank i+1; its cells are the user, lap time, screenshot link and formatted date of the i-th sorted record; lap times do not decrease down the table |
| Ranking.RankingShowsEveryRecord | frontend/src/components/RankingTable.js:25-35 | each record of the map is shown, with its own user, lap time and link, by some row at that row's rank |
| Ranking.RankingShowsOnlyRecords | frontend/src/components/RankingTable.js:25-35 | each row shows some record of the map |
| LapTimeOrder.Number | frontend/src/components/RankingTable.js:7 | a digit string of length n denotes a number below 10^n |
| LapTimeOrder.NumberOrder | frontend/src/components/RankingTable.js:7 | on digit strings of equal length, text order is numeric order |
| LapTimeOrder.LeConcat | frontend/src/components/RankingTable.js:7 | text order on concatenations with leading parts of equal length is decided by those parts, then by the rest |
| LapTimeOrder.RadixOrder | frontend/src/components/RankingTable.js:7 | in a mixed-radix number, a lower digit decides only on a tie of the higher ones |
| LapTimeOrder.TextOrderByFields | frontend/src/components/RankingTable.js:7 | text order of two lap times of one shape compares minutes, then seconds, then fraction |
| LapTimeOrder.LexIsDuration | frontend/src/components/RankingTable.js:7 | comparing minutes, seconds below 60 and fractions in turn is comparing total durations |
| LapTimeOrder.NumberInjective | frontend/src/components/RankingTable.js:7 | equal-length digit strings are equal exactly when their numbers are |
| LapTimeOrder.FixedWidthOrderIsDurationOrder | frontend/src/components/RankingTable.js:7 | for two lap times of the same width with seconds below 60, text order holds exactly when duration order holds |
| LapTimeOrder.MixedWidthBreaksOrder | frontend/src/components/RankingTable.js:7 | "10:00.00" sorts before "9:59.99", although it is the longer lap (60000 against 59999 hundredths) |
| LapTimeOrder.PunctuationRanksFirst | frontend/src/components/RankingTable.js:7 | "1:05.00" sorts before "10:00.00" and not the other way round, because ':' ranks below '0'; here collation order agrees with the durations (6500 against 60000 hundredths) |
| AppState.App.constructor | frontend/src/App.js:10-13 | no records, not loading, no map selected, empty search term |
| AppState.App.View | frontend/src/App.js:56-80 | the leaderboard of the selected map's records is shown exactly when a map is selected; otherwise the filtered catalog is shown |
| AppState.App.SelectMap | frontend/src/App.js:74 | the selection becomes the clicked map, and the leaderboard shows exactly when that name is non-empty |
| AppState.App.Back | frontend/src/App.js:60 | the selection is cleared and the filtered catalog shows |
| AppState.App.SetSearchTerm | frontend/src/App.js:70 | the search term becomes the typed text |
| AppState.App.StartFetch | frontend/src/App.js:21-25 | loading is set and the request URL carries the selected map as `map` |
| AppState.App.FinishFetch | frontend/src/App.js:27-36 | a good answer replaces the records wholesale, a bad status or an exception keeps them, and loading ends either way |
| AppState.App.FetchLaptimes | frontend/src/App.js:20-37 | the request URL, the replace-or-keep outcome, and loading cleared at the end |
| UploadForm.SuccessMessage | frontend/src/components/UploadForm.js:35 | the success message never reads as an error report (it names the user and the map: `UploadForm.SuccessMessageNames`) |
| UploadForm.ErrorMessage | frontend/src/components/UploadForm.js:41 | the error message reads as an error report and ends with the reason in full |
| UploadForm.SuccessMessageNames | frontend/src/components/UploadForm.js:35 | the success message contains the returned user name and map name |
| UploadForm.OutcomeMessage | frontend/src/components/UploadForm.js:31-42 | success gives the success message; a non-ok reply gives "에러: " plus its error, or plus "업로드 실패" when the error is falsy; an exception gives "에러: " plus its message |
| UploadForm.Form.constructor | frontend/src/components/UploadForm.js:7-8 | no file and an empty message |
| UploadForm.Form.HandleFileChange | frontend/src/components/UploadForm.js:10-12 | the file becomes the first chosen file, or none for an empty list; the message is untouched |
| UploadForm.Form.BeginSubmit | frontend/src/components/UploadForm.js:16-23 | without a file: the guard message and nothing is sent; with a file: the in-progress message and the file is sent |
| UploadForm.Form.CompleteSubmit | frontend/src/components/UploadForm.js:25-42 | the message for the outcome, and the callback runs exactly when the upload succeeded |
| UploadForm.Form.HandleSubmit | frontend/src/components/UploadForm.js:14-43 | without a file: the guard message and no callback; with a file: the outcome's message and exactly one callback on success, none otherwise |
| Backend.LastDot | run.py:44 | the index of a '.' with no '.' after it, or none when there is no '.' |
| Backend.AllowedFile | run.py:43-44 | an accepted name has a '.' followed by png, jpg or jpeg in any letter case (both directions, at the last '.': `Backend.AllowedFileSpec`) |
| Backend.AllowedFileSpec | run.py:41-44 | a name is allowed exactly when it has a '.' and the lowercased text after the last '.' is png, jpg or jpeg |
| Backend.AllowedFileExamples | run.py:41-44 | "a.JPG" and ".png" are allowed; "png" and "a.jpg.txt" are not |
| Backend.DetectText | run.py:63-69 | a Vision error raises "Vision API 에러: " plus its message; an exception of the client itself is passed on with its own text; otherwise the first annotation's text, or "" when there is none |
| Backend.Extract | run.py:94-101 | a matched map or user name is stripped and an unmatched one is "Unknown"; the lap time is the one found after the anchor, or "00:00.00" |
| Backend.ExtractedLapTimeIsShaped | run.py:96-100 | the stored lap time always has the shape 1-2 digits ':' 2 digits '.' 2-3 digits |
| Backend.NewRecord | run.py:103-109 | the inserted record has exactly the five fields, and only `uploaded_at` holds a datetime (field values: `Backend.SuccessfulUploadBody`) |
| Backend.UploadAndProcess | run.py:74-116 | a missing file field and a bad name each answer 400 with no service call; a valid file that S3 does not store answers 500 after one call; a Vision error, an exception of the Vision client and a failed insert each answer 500 with "이미지 처리 중 오류 발생: " plus the exception's text; a valid file with every service succeeding answers 201; status is 201, 400 or 500; OCR runs only after an S3 upload; 201 comes after exactly S3, OCR and one insert |
| Backend.S3FailureStopsBeforeOcr | run.py:80-85 | a valid file that S3 does not store answers 500 after the S3 call alone |
| Backend.SuccessfulUploadBody | run.py:103-113 | a 201 body holds exactly the five record fields plus `_id`, with the extracted values, the S3 URL and the time; the inserted document is that body without `_id` |
| Backend.BuildQuery | run.py:124-127 | the query is empty exactly when the `map` argument is missing, empty or "All"; otherwise it filters `map_name` on that argument |
| Backend.QuerySelects | run.py:124-128 | a document matches the query exactly when the argument is missing, empty or "All", or the document's map is the argument |
| Backend.IsoConversionSettles | run.py:129-131 | a second conversion changes nothing |
| Backend.GetLaptimes | run.py:119-135 | no client: 500 and no query; a failing query: 500; otherwise 200 with the found documents in order, each with a datetime `uploaded_at` turned into ISO text and everything else unchanged |
| LapTimeScan.MatchWith | run.py:96 | with a given count of leading digits, the pattern matches exactly when the text there is shaped with a two-digit fraction; the match is lap-time shaped, and it takes a third fraction digit exactly when one follows |
| LapTimeScan.MatchWithCovers | run.py:96 | lap-time-shaped text with that count of leading digits is matched at least in full |
| LapTimeScan.OneDigitRulesOutTwo | run.py:96 | text with one leading digit before ':' cannot match with two leading digits |
| LapTimeScan.MatchAt | run.py:96 | a reported match is lap-time shaped and lies within the text; wherever lap-time-shaped text starts, the pattern matches, and the match is the longest such text |
| LapTimeScan.FindFrom | run.py:96 | the first position from the start point where the pattern matches, or none when it matches nowhere after it |
| LapTimeScan.FirstOccurrence | run.py:96 | the first occurrence of the anchor, or none when there is none |
| LapTimeScan.FoundLapTimeIsShaped | run.py:96 | a found lap time is lap-time shaped and occurs after an anchor |
| LapTimeScan.NotFoundMeansNoLapTime | run.py:96 | the search fails only when no lap-time-shaped text follows any anchor |
| LapTimeScan.FindLapTime | run.py:96 | a found lap time is lap-time shaped and occurs in the text |
| LapTimeScan.FoundLapTimeIsLeftmostLongest | run.py:96 | no lap-time-shaped text starts between the first anchor and the found time, and none starting where it starts is longer |
| Wiring.UploadThenRefresh | frontend/src/App.js:53 | records are requested exactly when a file was chosen and the upload succeeded, and are replaced only by that request's good answer; loading has ended after a request and is untouched without one; the form shows the no-file message, or the outcome's message when a file was chosen |
| Wiring.SelectAndLoad | frontend/src/App.js:39-41 | a map click from the map list selects the map; it requests that map's records and replaces or keeps them exactly when the selection changed (a non-empty name); a click on an entry named "" requests nothing and keeps the records and the loading flag |
| Wiring.BackAndLoad | frontend/src/App.js:39-41 | going back from the leaderboard clears the selection, fetches with an empty `map`, replaces or keeps the records, and shows the filtered catalog of what is held |
| Wiring.AllEntryAcrossTiers | run.py:124-127 | the "All" entry makes the backend return every record, while the leaderboard keeps none unless a map is named "All" |
| Scenarios.CatalogScenario | frontend/src/App.js:15 | records on MapA, MapA and MapB give the catalog ["All", "MapA", "MapB"] |
| Scenarios.SearchVerdicts | frontend/src/App.js:16-18 | the search "mapb" keeps "MapB" and drops "MapA" and "All" |
| Scenarios.SearchScenario | frontend/src/App.js:16-18 | the search "mapb" leaves only "MapB" |
| Scenarios.LeaderboardScenario | frontend/src/components/RankingTable.js:7-27 | the MapA board ranks bob (00:59.999) first and alice (01:23.456) second |
| Scenarios.UploadSuccessScenario | frontend/src/components/UploadForm.js:35 | the success reply for dave on MapC counts as success and its message names both |
| Scenarios.UploadFailureScenario | frontend/src/components/UploadForm.js:31-41 | the reply "no lap time detected" is a failure whose message is "에러: " plus that text |
| Scenarios.FindLapTimeScenario | run.py:96 | "1:23.456" on the line after the anchor is found whole, with its third fraction digit |

## Left out

- I/O is not modelled: HTTP, `fetch`, `FormData`, `response.json()`, JSON serialisation by `jsonify`, and console and print logging. A response is an input value.
- The outside services are inputs of the handlers, not models: S3 (`upload_content_to_s3`), Google Vision, MongoDB's `insert_one` and `find`, and werkzeug's `secure_filename`. The model does not check that `find` honours the query, sorts by `lap_time` or drops `_id`.
- The map-name and user-name regular expressions (run.py:94, run.py:97) are given as their optional first capture group. Only the fallbacks and the stripping are modelled.
- Timestamps are opaque: `datetime.now(ZoneInfo("Asia/Seoul"))`, `isoformat()` and the Korea-time `toLocaleString` are parameters.
- The scheduling of React state updates and of `useEffect` is not modelled. `Wiring.SelectAndLoad` and `Wiring.BackAndLoad` each treat a click and its effect as one step. The effect runs only when the click changes the selection; a click on a catalog entry named "" (a map name that strips to nothing) makes no request. The back button's effect fetches with `map=''`, which the backend reads as no filter, so its answer restores the full catalog; `MapCatalog.SingleMapCatalog` describes the catalog only before that answer arrives.
- Overlapping refreshes, where a later answer overwrites an earlier one, are not modelled. Each fetch is one request and its answer, with nothing in between.
- `config.py` is not part of this model, because it only reads configuration.
- JSX layout, CSS, and the upload URL `http://localhost:5000/api/upload` are left out as presentation and configuration.
- Text.Lower: lowercases ASCII letters only, not the full Unicode mapping of `toLowerCase`/`lower()`.
- Text.Le: `localeCompare` is modelled by the primary weights of the root collation on the characters of lap times, with ':' and '.' below the digits (`Text.Weight`). Other characters are compared by code point. Locale tailorings, and the case and accent levels of collation, are not modelled.
- LapTimeScan.FindLapTime: `\d` is taken as the ASCII digits only, not every Unicode decimal digit that Python's `re` accepts.
- AppState.App.StartFetch: the map name goes into the URL as is. Percent-encoding, and the way Flask parses a name that contains '&', '#' or '+', are not modelled.
- Backend.SuccessfulUploadBody: `insert_one` also adds `_id` to the inserted dict itself; the model keeps the inserted document as it was before the call.
- Ranking.SortByLapTime: the model works on immutable sequences, so "the input array is not modified" holds by construction and is not stated.

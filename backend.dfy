/** The Flask backend's decision logic: the upload endpoint's checks and
    record construction, and the listing endpoint's query and timestamp
    conversion. S3, Google Vision, MongoDB and `secure_filename` are given as
    inputs (`Services`, `find`), and every call the handler makes to them is
    reported so that the order of the checks can be stated. */
module Backend {
  import opened Text
  import opened Wrappers
  import LapTimeScan

  // ---------------------------------------------------------------------
  // JSON-like values

  /** A `datetime.datetime`, kept opaque (its rendering is an input). */
  datatype DateTime = DateTime(stamp: int)

  /** A document field value as MongoDB and jsonify see it. */
  datatype Value = Str(s: string) | Time(t: DateTime) | Number(n: int) | Null

  /** A document (a Python `dict` with string keys). */
  type Doc = map<string, Value>

  /** A MongoDB filter: field name to the string it must equal. */
  type Query = map<string, string>

  datatype Body = ErrorBody(error: string) | DocBody(doc: Doc) | DocsBody(docs: seq<Doc>)

  /** `(jsonify(body), status)`. */
  datatype Response = Response(body: Body, status: int)

  // ---------------------------------------------------------------------
  // allowed_file

  const AllowedExtensions: set<string> := {"png", "jpg", "jpeg"}

  /** Index of the last '.' in `s`, if any. */
  function LastDot(s: string): (i: Option<nat>)
    ensures i.Some? ==> i.value < |s| && s[i.value] == '.' && '.' !in s[i.value + 1..]
    ensures i.None? ==> '.' !in s
  {
    if s == [] then None
    else if s[|s| - 1] == '.' then Some(|s| - 1)
    else
      var i := LastDot(s[..|s| - 1]);
      assert s == s[..|s| - 1] + [s[|s| - 1]];
      if i.Some? then
        assert s[i.value + 1..] == s[..|s| - 1][i.value + 1..] + [s[|s| - 1]];
        i
      else i
  }

  /** `'.' in filename and filename.rsplit('.', 1)[1].lower() in ALLOWED_EXTENSIONS`. */
  function AllowedFile(filename: string): (ok: bool)
    ensures ok ==> exists i :: 0 <= i < |filename| && filename[i] == '.' && Lower(filename[i + 1..]) in AllowedExtensions
  {
    match LastDot(filename)
    case None => false
    case Some(i) => Lower(filename[i + 1..]) in AllowedExtensions
  }

  /** A name is accepted exactly when it has a '.' and the text after its last
      '.' is png, jpg or jpeg in any letter case. */
  lemma AllowedFileSpec(filename: string)
    ensures AllowedFile(filename) <==>
      exists i :: 0 <= i < |filename| && filename[i] == '.' && '.' !in filename[i + 1..] &&
                  Lower(filename[i + 1..]) in AllowedExtensions
  {
    var d := LastDot(filename);
    forall i | 0 <= i < |filename| && filename[i] == '.' && '.' !in filename[i + 1..]
      ensures d == Some(i)
    {
    }
  }

  lemma AllowedFileExamples()
    ensures AllowedFile("a.JPG")
    ensures AllowedFile(".png")
    ensures !AllowedFile("png")
    ensures !AllowedFile("a.jpg.txt")
  {
    assert LastDot("a.JPG") == Some(1);
    assert "a.JPG"[2..] == "JPG";
    assert Lower("JPG") == "jpg";
    assert LastDot(".png") == Some(0);
    assert ".png"[1..] == "png";
    assert Lower("png") == "png";
    assert LastDot("a.jpg.txt") == Some(5);
    assert "a.jpg.txt"[6..] == "txt";
    assert Lower("txt") == "txt";
  }

  // ---------------------------------------------------------------------
  // Upload endpoint

  /** A werkzeug `FileStorage`: the file part of the multipart request. */
  datatype FileStorage = FileStorage(filename: string, contentType: string)

  /** `request.files`: the file parts by field name. */
  datatype UploadRequest = UploadRequest(files: map<string, FileStorage>)

  /** What Google Vision's `text_detection` did: a reply with its error
      message ("" when none) and the descriptions of the text annotations, or
      the text of an exception raised by the client itself. */
  datatype VisionReply =
    | Replied(errorMessage: string, annotations: seq<string>)
    | Raised(reason: string)

  /** What `collection.insert_one` did: the inserted id, or the text of the
      exception it raised. */
  datatype InsertOutcome = Inserted(id: string) | InsertFailed(reason: string)

  /** The answers of the outside services to one request. The two regular
      expressions for the map and user names are given as their first
      capture group, `None` when they do not match. */
  datatype Services = Services(
    secureFilename: string -> string,
    s3Url: Option<string>,
    vision: VisionReply,
    mapNameMatch: string -> Option<string>,
    usernameMatch: string -> Option<string>,
    insert: InsertOutcome,
    now: DateTime)

  /** A call the handler makes to an outside service, in the order made. */
  datatype ServiceCall = S3Upload(objectName: string, contentType: string) | VisionOcr | DbInsert(doc: Doc)

  datatype Handled = Handled(response: Response, calls: seq<ServiceCall>)

  const MissingFileError: string := "요청에 파일이 없습니다."
  const BadFileError: string := "파일이 선택되지 않았거나 허용되지 않는 파일 형식입니다."
  const S3Error: string := "S3에 파일을 업로드하지 못했습니다."
  const UnknownName: string := "Unknown"
  const DefaultLapTime: string := "00:00.00"

  function ProcessingError(reason: string): string {
    "이미지 처리 중 오류 발생: " + reason
  }

  /** `detect_text_from_image`: the first annotation's text, "" when there is
      none, and an exception when Vision reports an error or the client
      raises one. */
  function DetectText(v: VisionReply): (r: Result<string, string>)
    ensures r.Failure? <==> v.Raised? || v.errorMessage != ""
    ensures v.Raised? ==> r == Failure(v.reason)
    ensures v.Replied? && v.errorMessage != "" ==> r == Failure("Vision API 에러: " + v.errorMessage)
    ensures r.Success? ==> r.value == (if v.annotations == [] then "" else v.annotations[0])
  {
    match v
    case Raised(reason) => Failure(reason)
    case Replied(message, annotations) =>
      if message != "" then Failure("Vision API 에러: " + message)
      else if annotations != [] then Success(annotations[0])
      else Success("")
  }

  datatype Extracted = Extracted(username: string, mapName: string, lapTime: string)

  /** The three fields read off the OCR text. Unmatched map and user names
      fall back to "Unknown" and a missing lap time to "00:00.00"; matched
      names are stripped of surrounding whitespace. */
  function Extract(text: string, svc: Services): (f: Extracted)
    ensures svc.mapNameMatch(text).None? ==> f.mapName == "Unknown"
    ensures svc.mapNameMatch(text).Some? ==> f.mapName == Strip(svc.mapNameMatch(text).value)
    ensures svc.usernameMatch(text).None? ==> f.username == "Unknown"
    ensures svc.usernameMatch(text).Some? ==> f.username == Strip(svc.usernameMatch(text).value)
    ensures LapTimeScan.FindLapTime(text).None? ==> f.lapTime == "00:00.00"
    ensures LapTimeScan.FindLapTime(text).Some? ==> f.lapTime == LapTimeScan.FindLapTime(text).value
  {
    var mapName := match svc.mapNameMatch(text) case Some(g) => Strip(g) case None => UnknownName;
    var lapTime := match LapTimeScan.FindLapTime(text) case Some(t) => t case None => DefaultLapTime;
    var username := match svc.usernameMatch(text) case Some(g) => Strip(g) case None => UnknownName;
    Extracted(username, mapName, lapTime)
  }

  /** The stored lap time always has the lap-time shape: either it was found
      after the anchor, or it is the default, which has that shape too. */
  lemma ExtractedLapTimeIsShaped(text: string, svc: Services)
    ensures LapTimeScan.IsLapTime(Extract(text, svc).lapTime)
  {
    if LapTimeScan.FindLapTime(text).Some? {
      LapTimeScan.FoundLapTimeIsShaped(text);
    } else {
      assert LapTimeScan.ShapedAs(DefaultLapTime, 2, 2);
    }
  }

  /** `laptime_data` as inserted: the five record fields, of which only the
      upload time is a datetime. */
  function NewRecord(f: Extracted, url: string, now: DateTime): (d: Doc)
    ensures d.Keys == {"username", "map_name", "lap_time", "screenshot_url", "uploaded_at"}
    ensures forall k :: k in d ==> (d[k].Time? <==> k == "uploaded_at")
  {
    map["username" := Str(f.username), "map_name" := Str(f.mapName), "lap_time" := Str(f.lapTime),
        "screenshot_url" := Str(url), "uploaded_at" := Time(now)]
  }

  /** The request carries a file part whose name passes the checks. */
  predicate FileAccepted(req: UploadRequest) {
    "file" in req.files && req.files["file"].filename != "" && AllowedFile(req.files["file"].filename)
  }

  /** S3 gave back a usable URL: `if not screenshot_url` lets it through. */
  predicate S3Stored(svc: Services) {
    svc.s3Url.Some? && svc.s3Url.value != ""
  }

  /** `upload_and_process_screenshot`: the checks run in order and each
      failure returns before any later service is called; when every check
      and service succeeds the answer is 201, and each exception caught by
      the `except` answers 500 with its own text. */
  function UploadAndProcess(req: UploadRequest, svc: Services): (h: Handled)
    ensures "file" !in req.files ==> h == Handled(Response(ErrorBody(MissingFileError), 400), [])
    ensures "file" in req.files && (req.files["file"].filename == "" || !AllowedFile(req.files["file"].filename))
            ==> h == Handled(Response(ErrorBody(BadFileError), 400), [])
    ensures FileAccepted(req) && !S3Stored(svc) ==> h.response == Response(ErrorBody(S3Error), 500) && |h.calls| == 1
    ensures FileAccepted(req) && S3Stored(svc) && svc.vision.Replied? && svc.vision.errorMessage != "" ==>
            h.response == Response(ErrorBody(ProcessingError("Vision API 에러: " + svc.vision.errorMessage)), 500) &&
            |h.calls| == 2
    ensures FileAccepted(req) && S3Stored(svc) && svc.vision.Raised? ==>
            h.response == Response(ErrorBody(ProcessingError(svc.vision.reason)), 500) && |h.calls| == 2
    ensures FileAccepted(req) && S3Stored(svc) && svc.vision.Replied? && svc.vision.errorMessage == "" &&
            svc.insert.InsertFailed? ==>
            h.response == Response(ErrorBody(ProcessingError(svc.insert.reason)), 500) && |h.calls| == 3
    ensures FileAccepted(req) && S3Stored(svc) && svc.vision.Replied? && svc.vision.errorMessage == "" &&
            svc.insert.Inserted? ==>
            h.response.status == 201
    ensures h.response.status in {201, 400, 500}
    ensures h.response.status == 400 <==> h.calls == []
    ensures h.response.status == 201 ==> |h.calls| == 3 && h.calls[1] == VisionOcr && h.calls[2].DbInsert?
    ensures VisionOcr in h.calls ==> |h.calls| >= 2 && h.calls[0].S3Upload? && h.calls[1] == VisionOcr
  {
    if "file" !in req.files then
      Handled(Response(ErrorBody(MissingFileError), 400), [])
    else
      var file := req.files["file"];
      if file.filename == "" || !AllowedFile(file.filename) then
        Handled(Response(ErrorBody(BadFileError), 400), [])
      else
        var upload := S3Upload(svc.secureFilename(file.filename), file.contentType);
        if svc.s3Url.None? || svc.s3Url.value == "" then
          Handled(Response(ErrorBody(S3Error), 500), [upload])
        else
          match DetectText(svc.vision)
          case Failure(e) =>
            Handled(Response(ErrorBody(ProcessingError(e)), 500), [upload, VisionOcr])
          case Success(text) =>
            var record := NewRecord(Extract(text, svc), svc.s3Url.value, svc.now);
            match svc.insert
            case InsertFailed(e) =>
              Handled(Response(ErrorBody(ProcessingError(e)), 500), [upload, VisionOcr, DbInsert(record)])
            case Inserted(id) =>
              Handled(Response(DocBody(record["_id" := Str(id)]), 201), [upload, VisionOcr, DbInsert(record)])
  }

  /** A file that passes the name checks but that S3 does not store ends the
      request with 500 after the S3 call alone. */
  lemma S3FailureStopsBeforeOcr(req: UploadRequest, svc: Services)
    requires "file" in req.files
    requires req.files["file"].filename != "" && AllowedFile(req.files["file"].filename)
    requires svc.s3Url.None?
    ensures UploadAndProcess(req, svc).response == Response(ErrorBody(S3Error), 500)
    ensures UploadAndProcess(req, svc).calls ==
      [S3Upload(svc.secureFilename(req.files["file"].filename), req.files["file"].contentType)]
  {
  }

  /** A successful upload answers 201 with the stored record plus its `_id`:
      the extracted names and lap time, the S3 URL and the upload time, and
      that same record (without `_id`) is what was inserted. */
  lemma SuccessfulUploadBody(req: UploadRequest, svc: Services)
    requires UploadAndProcess(req, svc).response.status == 201
    ensures svc.s3Url.Some? && svc.insert.Inserted? && DetectText(svc.vision).Success?
    ensures UploadAndProcess(req, svc).response.body.DocBody?
    ensures
      var doc := UploadAndProcess(req, svc).response.body.doc;
      var f := Extract(DetectText(svc.vision).value, svc);
      && doc.Keys == {"username", "map_name", "lap_time", "screenshot_url", "uploaded_at", "_id"}
      && doc["username"] == Str(f.username) && doc["map_name"] == Str(f.mapName)
      && doc["lap_time"] == Str(f.lapTime) && doc["screenshot_url"] == Str(svc.s3Url.value)
      && doc["uploaded_at"] == Time(svc.now) && doc["_id"] == Str(svc.insert.id)
      && UploadAndProcess(req, svc).calls[2] == DbInsert(doc - {"_id"})
  {
    var f := Extract(DetectText(svc.vision).value, svc);
    var record := NewRecord(f, svc.s3Url.value, svc.now);
    assert record["_id" := Str(svc.insert.id)] - {"_id"} == record;
  }

  // ---------------------------------------------------------------------
  // Listing endpoint

  /** `query = {}; if map_filter and map_filter != 'All': query['map_name'] = map_filter`. */
  function BuildQuery(mapArg: Option<string>): (q: Query)
    ensures q == map[] <==> mapArg.None? || mapArg.value == "" || mapArg.value == "All"
    ensures q != map[] ==> q == map["map_name" := mapArg.value]
  {
    var q: Query := map[];
    if mapArg.Some? && mapArg.value != "" && mapArg.value != "All" then
      assert "map_name" in q["map_name" := mapArg.value];
      q["map_name" := mapArg.value]
    else q
  }

  /** A document satisfies a query when it holds each field the query names
      with that string value: MongoDB's equality match. */
  predicate Satisfies(doc: Doc, q: Query) {
    forall k :: k in q ==> k in doc && doc[k] == Str(q[k])
  }

  /** The query selects every document when the map argument is missing,
      empty or "All", and otherwise exactly the documents of that map. */
  lemma QuerySelects(mapArg: Option<string>, doc: Doc)
    ensures Satisfies(doc, BuildQuery(mapArg)) <==>
      (mapArg.None? || mapArg.value == "" || mapArg.value == "All" ||
       ("map_name" in doc && doc["map_name"] == Str(mapArg.value)))
  {
    var q := BuildQuery(mapArg);
    if q != map[] {
      assert "map_name" in q;
    }
  }

  /** `after` is `before` with a datetime `uploaded_at` replaced by its ISO
      text; every other field, and any other kind of value, is unchanged. */
  predicate IsoConverted(before: Doc, after: Doc, isoformat: DateTime -> string) {
    && after.Keys == before.Keys
    && (forall k :: k in before && k != "uploaded_at" ==> after[k] == before[k])
    && ("uploaded_at" in before ==>
          after["uploaded_at"] ==
            (if before["uploaded_at"].Time? then Str(isoformat(before["uploaded_at"].t)) else before["uploaded_at"]))
  }

  /** Converting again changes nothing: after one pass no `uploaded_at` is a
      datetime any more. */
  lemma IsoConversionSettles(a: Doc, b: Doc, c: Doc, isoformat: DateTime -> string)
    requires IsoConverted(a, b, isoformat) && IsoConverted(b, c, isoformat)
    ensures c == b
  {
    forall k | k in b ensures c[k] == b[k] {
      if k == "uploaded_at" {
        assert !b[k].Time?;
      }
    }
  }

  const NotConnectedError: string := "데이터베이스에 연결되지 않았습니다."
  const QueryError: string := "데이터를 조회하는 데 실패했습니다."

  /** `get_laptimes`: no database client answers 500 before any query; a
      query that raises answers 500; otherwise the found documents are
      answered with 200 after their datetimes are turned into ISO text in
      place. `find` stands for `list(collection.find(query, {'_id': 0}).sort(...))`,
      `None` when it raises. The query sent is returned as `issued`. */
  method GetLaptimes(connected: bool, mapArg: Option<string>,
                     find: Query -> Option<seq<Doc>>, isoformat: DateTime -> string)
    returns (resp: Response, issued: Option<Query>)
    ensures !connected ==> resp == Response(ErrorBody(NotConnectedError), 500) && issued.None?
    ensures connected ==> issued == Some(BuildQuery(mapArg))
    ensures connected && find(BuildQuery(mapArg)).None? ==> resp == Response(ErrorBody(QueryError), 500)
    ensures connected && find(BuildQuery(mapArg)).Some? ==>
      var found := find(BuildQuery(mapArg)).value;
      && resp.status == 200 && resp.body.DocsBody? && |resp.body.docs| == |found|
      && forall i :: 0 <= i < |found| ==> IsoConverted(found[i], resp.body.docs[i], isoformat)
  {
    if !connected {
      return Response(ErrorBody(NotConnectedError), 500), None;
    }
    var query := BuildQuery(mapArg);
    issued := Some(query);
    var result := find(query);
    if result.None? {
      return Response(ErrorBody(QueryError), 500), issued;
    }
    var found := result.value;
    var laps := new Doc[|found|](i requires 0 <= i < |found| => found[i]);
    for i := 0 to laps.Length
      invariant forall k :: 0 <= k < i ==> IsoConverted(found[k], laps[k], isoformat)
      invariant forall k :: i <= k < laps.Length ==> laps[k] == found[k]
    {
      var lap := laps[i];
      if "uploaded_at" in lap && lap["uploaded_at"].Time? {
        laps[i] := lap["uploaded_at" := Str(isoformat(lap["uploaded_at"].t))];
      }
    }
    resp := Response(DocsBody(laps[..]), 200);
  }
}

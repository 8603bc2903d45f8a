/** The `UploadForm` component: the chosen file, the status message, and the
    submit handler with its guard and its one success callback. */
module UploadForm {
  import opened Text
  import opened Wrappers

  /** A browser `File` object, kept opaque. */
  datatype File = File(name: string)

  /** The parsed JSON body of the upload reply. An `error` of "" stands for a
      missing, null or empty field (all falsy). */
  datatype Reply = Reply(username: string, mapName: string, error: string)

  /** What one upload request came to. */
  datatype UploadOutcome =
    | Replied(ok: bool, body: Reply)   // a response whose body parsed; `ok` is `response.ok`
    | Threw(reason: string)            // `fetch` or `response.json()` rejected with this message

  const NoFileMessage: string := "파일을 먼저 선택해주세요!"
  const InProgressMessage: string := "업로드 및 분석 중..."
  const FallbackError: string := "업로드 실패"

  const ErrorPrefix: string := "에러: "

  /** The message reads as an error report. */
  predicate IsErrorMessage(message: string) {
    |ErrorPrefix| <= |message| && message[..|ErrorPrefix|] == ErrorPrefix
  }

  /** The success message; whatever the names, it never reads as an error. */
  function SuccessMessage(username: string, mapName: string): (r: string)
    ensures !IsErrorMessage(r)
  {
    var r := "성공! " + username + "님의 " + mapName + " 랩타임이 기록되었습니다.";
    assert r[0] == '성' && ErrorPrefix[0] == '에';
    r
  }

  /** The error message: an error report that ends with the reason in full. */
  function ErrorMessage(reason: string): (r: string)
    ensures IsErrorMessage(r)
    ensures |r| == |ErrorPrefix| + |reason|
    ensures |reason| <= |r| && r[|r| - |reason|..] == reason
  {
    ErrorPrefix + reason
  }

  /** The success message names both the user and the map. */
  lemma SuccessMessageNames(username: string, mapName: string)
    ensures Contains(SuccessMessage(username, mapName), username)
    ensures Contains(SuccessMessage(username, mapName), mapName)
  {
    ContainsMiddle("성공! ", username, "님의 " + mapName + " 랩타임이 기록되었습니다.");
    assert SuccessMessage(username, mapName) ==
      "성공! " + username + ("님의 " + mapName + " 랩타임이 기록되었습니다.");
    ContainsMiddle("성공! " + username + "님의 ", mapName, " 랩타임이 기록되었습니다.");
  }

  /** The upload succeeded exactly when a response came back with `ok`. */
  predicate Succeeded(outcome: UploadOutcome) {
    outcome.Replied? && outcome.ok
  }

  /** The message the submit handler shows once the request has settled. */
  function OutcomeMessage(outcome: UploadOutcome): (m: string)
    ensures Succeeded(outcome) ==> m == SuccessMessage(outcome.body.username, outcome.body.mapName)
    ensures outcome.Replied? && !outcome.ok && outcome.body.error != "" ==> m == ErrorMessage(outcome.body.error)
    ensures outcome.Replied? && !outcome.ok && outcome.body.error == "" ==> m == ErrorMessage(FallbackError)
    ensures outcome.Threw? ==> m == ErrorMessage(outcome.reason)
  {
    match outcome
    case Threw(reason) => ErrorMessage(reason)
    case Replied(ok, body) =>
      if ok then SuccessMessage(body.username, body.mapName)
      else ErrorMessage(if body.error != "" then body.error else FallbackError)
  }

  class Form {
    var file: Option<File>
    var message: string

    constructor ()
      ensures file == None && message == ""
    {
      file, message := None, "";
    }

    /** `handleFileChange`: `setFile(event.target.files[0])`; an empty file
        list yields `undefined`. The message is left as it was. */
    method HandleFileChange(files: seq<File>)
      modifies this`file
      ensures file == if files == [] then None else Some(files[0])
    {
      file := if files == [] then None else Some(files[0]);
    }

    /** `handleSubmit` up to the request: with no file, the guard message and
        no request; with a file, the in-progress message, then the request. */
    method BeginSubmit() returns (sent: Option<File>)
      modifies this`message
      ensures sent == file
      ensures message == if file.None? then NoFileMessage else InProgressMessage
    {
      if file.None? {
        message := NoFileMessage;
        return None;
      }
      message := InProgressMessage;
      sent := file;
    }

    /** `handleSubmit` after the request settled: the outcome's message, and
        `onUploadSuccess` called (`notified`) only on success. */
    method CompleteSubmit(outcome: UploadOutcome) returns (notified: bool)
      modifies this`message
      ensures message == OutcomeMessage(outcome)
      ensures notified <==> Succeeded(outcome)
    {
      message := OutcomeMessage(outcome);
      notified := Succeeded(outcome);
    }

    /** The whole of `handleSubmit` for one outcome of the request: the file
        sent (none without a file) and how many times `onUploadSuccess` ran. */
    method HandleSubmit(outcome: UploadOutcome) returns (sent: Option<File>, callbacks: nat)
      modifies this`message
      ensures sent == file
      ensures file.None? ==> message == NoFileMessage && callbacks == 0
      ensures file.Some? ==> message == OutcomeMessage(outcome)
      ensures callbacks == if file.Some? && Succeeded(outcome) then 1 else 0
    {
      sent := BeginSubmit();
      callbacks := 0;
      if sent.Some? {
        var notified := CompleteSubmit(outcome);
        if notified {
          callbacks := callbacks + 1;
        }
      }
    }
  }
}

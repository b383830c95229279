/**
 * The error classifier every service operation sends a thrown error to. It
 * tells apart three shapes of failure (the server answered, no answer came,
 * the request was never sent), builds a message, logs it and returns it; it
 * never throws.
 */
module AxiosErrorHandler {
  import opened Wrappers
  import opened Http
  import JsRuntime

  /** One `logger.error(...)` call. */
  datatype LogLine =
    | ErrorText(text: string)        // a message string
    | StringifyException             // the exception that JSON.stringify threw
    | ErrorObject(error: AxiosError) // the whole error object

  datatype Handled = Handled(message: string, log: seq<LogLine>)

  /** The three failure classes, in the order the handler tests them. */
  datatype ErrorKind = ServerResponded | NoResponse | SetupFailed

  const NoResponseMessage := "The request was made but no response was received"
  const SetupErrorMessage := "Something happened in setting up the request that triggered an Error"
  const StringifyFailedMessage := "Error trying to stingify response on: "

  function Classify(err: AxiosError): (kind: ErrorKind)
    ensures kind == ServerResponded <==> err.response.Some?
    ensures kind == NoResponse <==> err.response.None? && err.request
    ensures kind == SetupFailed <==> err.response.None? && !err.request
  {
    if err.response.Some? then ServerResponded
    else if err.request then NoResponse
    else SetupFailed
  }

  /**
   * The message describing a server response: the stringified body when the
   * body is truthy, else the status text. None when JSON.stringify throws.
   */
  function ResponseMessage(r: ErrorResponse, stringify: Json -> Option<string>): (m: Option<string>)
    ensures Truthy(r.data) ==> m == stringify(r.data.value)
    ensures !Truthy(r.data) ==> m == Some(r.statusText)
  {
    if Truthy(r.data) then stringify(r.data.value) else Some(r.statusText)
  }

  /** The line logged when the server answered. */
  function ResponseLine(endpoint: string, status: int, message: string): string {
    "Error calling " + endpoint + " responseCode: " + JsRuntime.IntToString(status) + " - " + message
  }

  /**
   * Classifies err, returning the message and the lines logged.
   * `stringify` stands for JSON.stringify; None means it threw.
   */
  function HandleError(err: AxiosError, endpoint: string, stringify: Json -> Option<string>): (h: Handled)
    ensures Classify(err) == ServerResponded ==>
      match ResponseMessage(err.response.value, stringify)
      case Some(m) =>
        h.message == m && h.log == [ErrorText(ResponseLine(endpoint, err.response.value.status, m))]
      case None =>
        h.message == "" && h.log == [ErrorText(StringifyFailedMessage), StringifyException, ErrorObject(err)]
    ensures Classify(err) == NoResponse ==>
      h.message == NoResponseMessage + endpoint && h.log == [ErrorText(h.message)]
    ensures Classify(err) == SetupFailed ==>
      h.message == SetupErrorMessage && h.log == [ErrorText(SetupErrorMessage), ErrorText(err.message)]
  {
    match err.response
    case Some(r) =>
      (match ResponseMessage(r, stringify)
       case Some(m) => Handled(m, [ErrorText(ResponseLine(endpoint, r.status, m))])
       case None => Handled("", [ErrorText(StringifyFailedMessage), StringifyException, ErrorObject(err)]))
    case None =>
      if err.request then
        var m := NoResponseMessage + endpoint;
        Handled(m, [ErrorText(m)])
      else
        Handled(SetupErrorMessage, [ErrorText(SetupErrorMessage), ErrorText(err.message)])
  }

  /**
   * When a response is present the request is never looked at: flipping the
   * request flag changes nothing.
   */
  lemma ResponseTakesPrecedence(err: AxiosError, endpoint: string, stringify: Json -> Option<string>)
    requires err.response.Some?
    ensures HandleError(err.(request := !err.request), endpoint, stringify).message
         == HandleError(err, endpoint, stringify).message
  {
  }

  /**
   * How many lines each class logs: one, or three when stringifying the body
   * fails; one when no response came; two when the request was never sent.
   * The handler never logs nothing.
   */
  lemma LogLineCount(err: AxiosError, endpoint: string, stringify: Json -> Option<string>)
    ensures var h := HandleError(err, endpoint, stringify);
      match Classify(err)
      case ServerResponded => |h.log| == 1 || |h.log| == 3
      case NoResponse => |h.log| == 1
      case SetupFailed => |h.log| == 2
  {
  }

  /**
   * Unless stringifying the response body fails, the returned message ends
   * the first logged line; when it fails, the message is empty and the first
   * line is the fixed failure text.
   */
  lemma MessageIsLogged(err: AxiosError, endpoint: string, stringify: Json -> Option<string>)
    ensures var h := HandleError(err, endpoint, stringify);
      |h.log| >= 1 && h.log[0].ErrorText?
    ensures var h := HandleError(err, endpoint, stringify);
      (err.response.None? || ResponseMessage(err.response.value, stringify).Some?) ==>
        |h.message| <= |h.log[0].text| &&
        h.log[0].text[|h.log[0].text| - |h.message|..] == h.message
    ensures var h := HandleError(err, endpoint, stringify);
      err.response.Some? && ResponseMessage(err.response.value, stringify).None? ==>
        h.message == "" && h.log[0].text == StringifyFailedMessage
  {
  }

  /** The status code can be read back from the logged line. */
  lemma StatusIsLogged(err: AxiosError, endpoint: string, stringify: Json -> Option<string>)
    requires err.response.Some?
    requires ResponseMessage(err.response.value, stringify).Some?
    ensures var h := HandleError(err, endpoint, stringify);
      var prefix := "Error calling " + endpoint + " responseCode: ";
      var digits := JsRuntime.IntToString(err.response.value.status);
      |h.log| == 1 && h.log[0].ErrorText? &&
      h.log[0].text[..|prefix|] == prefix &&
      JsRuntime.ParseInt(h.log[0].text[|prefix|..|prefix| + |digits|]) == Some(err.response.value.status)
  {
    var r := err.response.value;
    var prefix := "Error calling " + endpoint + " responseCode: ";
    var digits := JsRuntime.IntToString(r.status);
    var rest := " - " + ResponseMessage(r, stringify).value;
    var line := ResponseLine(endpoint, r.status, ResponseMessage(r, stringify).value);
    assert line == prefix + digits + rest;
    assert line[..|prefix|] == prefix;
    assert line[|prefix|..|prefix| + |digits|] == digits;
    JsRuntime.IntToStringRoundTrip(r.status);
  }
}

/** The HTTP access wrapper: every verb targets `<baseUrl>/<endpoint>` with
    a JSON content type, and every failure is normalised into one message. */
module BaseHttp {
  import opened Wrappers
  import opened Builtins

  datatype Verb = GET | POST | PUT | DELETE

  /** A request as the wrapper hands it to the HTTP client. */
  datatype HttpRequest<B> = HttpRequest(verb: Verb, url: string, body: Option<B>, headers: seq<(string, string)>)

  /** The headers of every request. */
  const JsonHeaders: seq<(string, string)> := [("Content-Type", "application/json")]

  /** `${baseUrl}/${endpoint}`. */
  function Url(baseUrl: string, endpoint: string): (r: string)
    ensures |r| == |baseUrl| + 1 + |endpoint|
    ensures r[..|baseUrl|] == baseUrl && r[|baseUrl|] == '/' && r[|baseUrl| + 1..] == endpoint
  {
    baseUrl + "/" + endpoint
  }

  /** For one base URL, different endpoints give different URLs. */
  lemma UrlInjective(baseUrl: string, e1: string, e2: string)
    ensures Url(baseUrl, e1) == Url(baseUrl, e2) <==> e1 == e2
  {
    if Url(baseUrl, e1) == Url(baseUrl, e2) {
      assert e1 == Url(baseUrl, e1)[|baseUrl| + 1..];
    }
  }

  function Get<B>(baseUrl: string, endpoint: string): (r: HttpRequest<B>)
    ensures r.verb == GET && r.url == Url(baseUrl, endpoint) && r.body == None && r.headers == JsonHeaders
  {
    HttpRequest(GET, Url(baseUrl, endpoint), None, JsonHeaders)
  }

  function Post<B>(baseUrl: string, endpoint: string, data: B): (r: HttpRequest<B>)
    ensures r.verb == POST && r.url == Url(baseUrl, endpoint) && r.body == Some(data) && r.headers == JsonHeaders
  {
    HttpRequest(POST, Url(baseUrl, endpoint), Some(data), JsonHeaders)
  }

  function Put<B>(baseUrl: string, endpoint: string, data: B): (r: HttpRequest<B>)
    ensures r.verb == PUT && r.url == Url(baseUrl, endpoint) && r.body == Some(data) && r.headers == JsonHeaders
  {
    HttpRequest(PUT, Url(baseUrl, endpoint), Some(data), JsonHeaders)
  }

  function Delete<B>(baseUrl: string, endpoint: string): (r: HttpRequest<B>)
    ensures r.verb == DELETE && r.url == Url(baseUrl, endpoint) && r.body == None && r.headers == JsonHeaders
  {
    HttpRequest(DELETE, Url(baseUrl, endpoint), None, JsonHeaders)
  }

  /** The `error` payload of a failed response, by shape. */
  datatype ErrorBody =
    | ClientErrorEvent(message: string)   // a client-side `ErrorEvent`
    | NoBody                              // `null` or `undefined`
    | TextBody(text: string)              // a plain string, which has no `message` property
    | ObjectBody(serverMessage: Option<string>) // a JSON object, with or without a `message`

  datatype HttpErrorResponse = HttpErrorResponse(error: ErrorBody, status: nat, statusText: string)

  /** The text `handleError` starts from before either branch replaces it. */
  const UnknownErrorText: string := "Ha ocurrido un error desconocido"

  /** `error.error?.message` is a non-empty string. */
  predicate HasTruthyMessage(body: ErrorBody) {
    body.ObjectBody? && body.serverMessage.Some? && body.serverMessage.value != ""
  }

  /** The message `handleError` settles on: a client-side event gives
      "Error: " and the event's message; otherwise the server's own message
      when it has a non-empty one; otherwise "Error <status>: <statusText>".
      The message is never empty. */
  function ErrorMessage(e: HttpErrorResponse): (r: string)
    ensures e.error.ClientErrorEvent? ==> r == "Error: " + e.error.message
    ensures !e.error.ClientErrorEvent? && HasTruthyMessage(e.error) ==> r == e.error.serverMessage.value
    ensures !e.error.ClientErrorEvent? && !HasTruthyMessage(e.error)
            ==> r == "Error " + NatToString(e.status) + ": " + e.statusText
    ensures r != ""
  {
    if e.error.ClientErrorEvent? then "Error: " + e.error.message
    else if HasTruthyMessage(e.error) then e.error.serverMessage.value
    else "Error " + NatToString(e.status) + ": " + e.statusText
  }

  /** The initial default text is overwritten on every path: it can come
      out only when the server itself sent exactly that text. */
  lemma DefaultTextNeverChosen(e: HttpErrorResponse)
    ensures ErrorMessage(e) == UnknownErrorText ==> e.error == ObjectBody(Some(UnknownErrorText))
  {
    var r := ErrorMessage(e);
    if !HasTruthyMessage(e.error) {
      assert r[0] == 'E';
    }
  }

  /** `handleError` always fails, carrying the normalised message; it never
      produces a value. */
  function HandleError<T>(e: HttpErrorResponse): (r: Result<T, string>)
    ensures r.Failure? && r.error == ErrorMessage(e)
  {
    Failure(ErrorMessage(e))
  }

  /** What a caller of a verb helper observes (`catchError(handleError)`):
      a response passes through unchanged, a failure becomes its message. */
  function Respond<T>(raw: Result<T, HttpErrorResponse>): (r: Result<T, string>)
    ensures raw.Success? ==> r == Success(raw.value)
    ensures raw.Failure? ==> r == Failure(ErrorMessage(raw.error))
  {
    match raw
    case Success(v) => Success(v)
    case Failure(e) => HandleError(e)
  }
}

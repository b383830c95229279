/**
 * The shapes the services exchange with their HTTP transport (axios): the
 * request configuration they build, and what comes back (a response, or a
 * thrown error with an optional response and request).
 */
module Http {
  import opened Wrappers
  import opened GoRest

  /** The base URL and bearer token read from configuration. */
  datatype Config = Config(url: string, accessToken: string)

  datatype Method = GET | PUT | DELETE

  /** An axios request configuration. */
  datatype Request = Request(
    verb: Method,
    url: string,
    headers: map<string, string>,
    params: Option<PageParam>,
    data: Option<PartialUser>)

  /** A parsed JSON value, as an error response may carry it. */
  datatype Json =
    | JNull
    | JBool(b: bool)
    | JNumber(n: int)
    | JString(s: string)
    | JArray(items: seq<Json>)
    | JObject(entries: seq<(string, Json)>)

  /** JavaScript truthiness of a value that may be `undefined` (None). */
  predicate Truthy(v: Option<Json>) {
    match v
    case None => false
    case Some(JNull) => false
    case Some(JBool(b)) => b
    case Some(JNumber(n)) => n != 0
    case Some(JString(s)) => s != ""
    case Some(JArray(_)) => true
    case Some(JObject(_)) => true
  }

  /** The `response` of an axios error: the server answered. */
  datatype ErrorResponse = ErrorResponse(status: int, statusText: string, data: Option<Json>)

  /**
   * An axios error. `request` says whether the request object is present,
   * that is, whether the request was sent.
   */
  datatype AxiosError = AxiosError(response: Option<ErrorResponse>, request: bool, message: string)

  /**
   * What awaiting a request yields: a response whose `data` is the parsed
   * body (None for `undefined` and for every other falsy body) and whose
   * headers carry numeric values, or a thrown error.
   */
  datatype Outcome<T> =
    | Resp(status: int, data: Option<T>, headers: map<string, int>)
    | Thrown(error: AxiosError)

  /** The response is a 200 with a truthy body. */
  predicate OkWithData<T>(o: Outcome<T>) {
    o.Resp? && o.status == 200 && o.data.Some?
  }

  /** The headers every request carries. */
  function StandardHeaders(accessToken: string): (h: map<string, string>)
    ensures h.Keys == {"Content-Type", "Authorization"}
    ensures h["Content-Type"] == "application/json"
    ensures h["Authorization"] == "Bearer " + accessToken
  {
    map["Content-Type" := "application/json", "Authorization" := "Bearer " + accessToken]
  }

  /** The template literal `${url}/${endpoint}`. */
  function CollectionUrl(base: string, endpoint: string): string {
    base + "/" + endpoint
  }

  /** The template literal `${url}/${endpoint}/${segment}`. */
  function ItemUrl(base: string, endpoint: string, segment: string): string {
    CollectionUrl(base, endpoint) + "/" + segment
  }
}

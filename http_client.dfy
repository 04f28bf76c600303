/** The request assembly and response wrapping of src/http/client.ts. The
    transport (undici's `request`) is not modelled: a request is assembled
    into the `WireRequest` undici would be given, and the transport's answer
    is an input `RawResponse`. */
module Http {
  import opened Wrappers
  import Text
  import FormUrlEncoded

  type Headers = map<string, string>

  /** undici gives a repeated response header as an array of strings. */
  datatype HeaderValue = Single(value: string) | Multiple(values: seq<string>)

  type ResponseHeaders = map<string, HeaderValue>

  datatype Method = GET | HEAD | POST | PUT | DELETE | CONNECT | OPTIONS | TRACE | PATCH

  /** The `body` option, typed `unknown` in the source. A plain object is
      carried with the text `JSON.stringify` gives for it. */
  datatype Body =
    | Absent
    | SearchParams(params: FormUrlEncoded.Params)
    | PlainObject(json: string)
      /** `null`, a string, an array, a class instance: anything else */
    | OtherValue

  /** `RequestOptions`, the argument of the static `request`. */
  datatype RequestOptions = RequestOptions(
    verb: Method,
    url: string,
    body: Body,
    headers: Option<Headers>,
    query: Option<FormUrlEncoded.Params>,
    validateStatus: Option<int -> bool>)

  /** `SimplifiedRequestOptions` without `method`, the argument of the
      instance methods; `get` does not look at `body`, which its type
      excludes. */
  datatype CallOptions = CallOptions(
    path: Option<string>,
    body: Body,
    headers: Option<Headers>,
    query: Option<FormUrlEncoded.Params>,
    validateStatus: Option<int -> bool>)

  /** What undici's `request` is called with. */
  datatype WireRequest = WireRequest(verb: Method, url: string, body: Option<string>, headers: Headers)

  /** What the transport answers: status code, headers, and the body as the
      value the caller goes on to read from it. */
  datatype RawResponse<B> = RawResponse(statusCode: int, headers: ResponseHeaders, body: B)

  /** The record the static `request` returns. */
  datatype Response<B> = Response(
    body: B,
    headers: ResponseHeaders,
    ok: bool,
    status: int,
    statusText: string,
    url: string)

  /** The codes Node's `http.STATUS_CODES` has a reason phrase for. */
  predicate KnownCode(code: int) {
    || 100 <= code <= 103
    || 200 <= code <= 208
    || code == 226
    || (300 <= code <= 308 && code != 306)
    || 400 <= code <= 418
    || 421 <= code <= 426
    || code == 428 || code == 429 || code == 431 || code == 451
    || 500 <= code <= 511
  }

  const UnknownStatus := "Unknown Status"

  /** `statusText`: Node's reason phrase for the code, or "Unknown Status"
      for a code Node does not list. */
  function StatusText(code: int): (r: string)
    ensures r == UnknownStatus <==> !KnownCode(code)
  {
    if 100 <= code < 200 then InformationalText(code)
    else if 200 <= code < 300 then SuccessfulText(code)
    else if 300 <= code < 400 then RedirectionText(code)
    else if 400 <= code < 500 then ClientErrorText(code)
    else if 500 <= code < 600 then ServerErrorText(code)
    else UnknownStatus
  }

  function InformationalText(code: int): (r: string)
    requires 100 <= code < 200
    ensures r == UnknownStatus <==> !KnownCode(code)
  {
    if code == 100 then "Continue" else
    if code == 101 then "Switching Protocols" else
    if code == 102 then "Processing" else
    if code == 103 then "Early Hints" else
    UnknownStatus
  }

  function SuccessfulText(code: int): (r: string)
    requires 200 <= code < 300
    ensures r == UnknownStatus <==> !KnownCode(code)
  {
    if code == 200 then "OK" else
    if code == 201 then "Created" else
    if code == 202 then "Accepted" else
    if code == 203 then "Non-Authoritative Information" else
    if code == 204 then "No Content" else
    if code == 205 then "Reset Content" else
    if code == 206 then "Partial Content" else
    if code == 207 then "Multi-Status" else
    if code == 208 then "Already Reported" else
    if code == 226 then "IM Used" else
    UnknownStatus
  }

  function RedirectionText(code: int): (r: string)
    requires 300 <= code < 400
    ensures r == UnknownStatus <==> !KnownCode(code)
  {
    if code == 300 then "Multiple Choices" else
    if code == 301 then "Moved Permanently" else
    if code == 302 then "Found" else
    if code == 303 then "See Other" else
    if code == 304 then "Not Modified" else
    if code == 305 then "Use Proxy" else
    if code == 307 then "Temporary Redirect" else
    if code == 308 then "Permanent Redirect" else
    UnknownStatus
  }

  function ClientErrorText(code: int): (r: string)
    requires 400 <= code < 500
    ensures r == UnknownStatus <==> !KnownCode(code)
  {
    if code == 400 then "Bad Request" else
    if code == 401 then "Unauthorized" else
    if code == 402 then "Payment Required" else
    if code == 403 then "Forbidden" else
    if code == 404 then "Not Found" else
    if code == 405 then "Method Not Allowed" else
    if code == 406 then "Not Acceptable" else
    if code == 407 then "Proxy Authentication Required" else
    if code == 408 then "Request Timeout" else
    if code == 409 then "Conflict" else
    if code == 410 then "Gone" else
    if code == 411 then "Length Required" else
    if code == 412 then "Precondition Failed" else
    if code == 413 then "Payload Too Large" else
    if code == 414 then "URI Too Long" else
    if code == 415 then "Unsupported Media Type" else
    if code == 416 then "Range Not Satisfiable" else
    if code == 417 then "Expectation Failed" else
    if code == 418 then "I'm a Teapot" else
    if code == 421 then "Misdirected Request" else
    if code == 422 then "Unprocessable Entity" else
    if code == 423 then "Locked" else
    if code == 424 then "Failed Dependency" else
    if code == 425 then "Too Early" else
    if code == 426 then "Upgrade Required" else
    if code == 428 then "Precondition Required" else
    if code == 429 then "Too Many Requests" else
    if code == 431 then "Request Header Fields Too Large" else
    if code == 451 then "Unavailable For Legal Reasons" else
    UnknownStatus
  }

  function ServerErrorText(code: int): (r: string)
    requires 500 <= code < 600
    ensures r == UnknownStatus <==> !KnownCode(code)
  {
    if code == 500 then "Internal Server Error" else
    if code == 501 then "Not Implemented" else
    if code == 502 then "Bad Gateway" else
    if code == 503 then "Service Unavailable" else
    if code == 504 then "Gateway Timeout" else
    if code == 505 then "HTTP Version Not Supported" else
    if code == 506 then "Variant Also Negotiates" else
    if code == 507 then "Insufficient Storage" else
    if code == 508 then "Loop Detected" else
    if code == 509 then "Bandwidth Limit Exceeded" else
    if code == 510 then "Not Extended" else
    if code == 511 then "Network Authentication Required" else
    UnknownStatus
  }

  /** The fallback status rule. */
  function DefaultValidateStatus(code: int): bool {
    code >= 200 && code < 300
  }

  /** `processBody`: the body undici is given and the Content-Type that goes
      with it. */
  function ProcessBody(body: Body): (r: (Option<string>, string))
    ensures r.0.None? <==> r.1 == ""
    ensures body.SearchParams? ==>
      r.1 == "application/x-www-form-urlencoded"
      && r.0.Some? && FormUrlEncoded.Parse(r.0.value) == body.params
    ensures body.PlainObject? ==> r == (Some(body.json), "application/json")
    ensures body.Absent? || body.OtherValue? ==> r == (None, "")
  {
    match body
    case SearchParams(ps) =>
      FormUrlEncoded.ParseSerialize(ps);
      (Some(FormUrlEncoded.Serialize(ps)), "application/x-www-form-urlencoded")
    case PlainObject(json) => (Some(json), "application/json")
    case _ => (None, "")
  }

  /** The URL undici is given: the query, when there is one, follows a `?`. */
  function RequestUrl(url: string, query: Option<FormUrlEncoded.Params>): (r: string)
    ensures query.None? ==> r == url
    ensures query.Some? ==> r == url + "?" + FormUrlEncoded.Serialize(query.value)
    ensures query.Some? && '?' !in url && '#' !in url ==>
      FormUrlEncoded.Parse(FormUrlEncoded.QueryOf(r)) == query.value
  {
    match query
    case None => url
    case Some(q) =>
      if '?' !in url && '#' !in url then
        FormUrlEncoded.QueryOfBuiltUrl(url, q);
        url + "?" + FormUrlEncoded.Serialize(q)
      else
        url + "?" + FormUrlEncoded.Serialize(q)
  }

  /** `{ ...low, ...high }`: every key of either, the value from `high` where
      both have one. */
  function MergeHeaders(low: Headers, high: Headers): (r: Headers)
    ensures r.Keys == low.Keys + high.Keys
    ensures forall k :: k in high ==> r[k] == high[k]
    ensures forall k :: k in low && k !in high ==> r[k] == low[k]
  {
    low + high
  }

  /** The static `request` up to the call into undici. */
  function Prepare(opts: RequestOptions): (w: WireRequest)
    ensures w.verb == opts.verb
    ensures w.url == RequestUrl(opts.url, opts.query)
    ensures w.body == ProcessBody(opts.body).0
    ensures "Content-Type" in w.headers && w.headers["Content-Type"] == ProcessBody(opts.body).1
    ensures forall k :: k != "Content-Type" ==>
      (k in w.headers <==> k in opts.headers.GetOr(map[]))
      && (k in w.headers ==> w.headers[k] == opts.headers.GetOr(map[])[k])
  {
    var (body, contentType) := ProcessBody(opts.body);
    WireRequest(opts.verb, RequestUrl(opts.url, opts.query), body,
                MergeHeaders(opts.headers.GetOr(map[]), map["Content-Type" := contentType]))
  }

  /** The static `request` after undici answers. */
  function Receive<B>(opts: RequestOptions, raw: RawResponse<B>): (r: Response<B>)
    ensures r.ok == if opts.validateStatus.Some? then opts.validateStatus.value(raw.statusCode)
                    else 200 <= raw.statusCode < 300
    ensures r.status == raw.statusCode && r.body == raw.body && r.headers == raw.headers
    ensures r.statusText == StatusText(raw.statusCode)
    ensures r.statusText == UnknownStatus <==> !KnownCode(raw.statusCode)
    ensures r.url == Prepare(opts).url
  {
    var validate := opts.validateStatus.GetOr(DefaultValidateStatus);
    Response(raw.body, raw.headers, validate(raw.statusCode), raw.statusCode,
             StatusText(raw.statusCode), RequestUrl(opts.url, opts.query))
  }

  /** `new HttpError(resp).message` */
  function HttpErrorMessage<B>(resp: Response<B>): string {
    Text.IntToString(resp.status) + " " + resp.statusText
  }

  class HttpClient {
    const url: string
    var headers: Headers

    constructor(url: string, headers: Headers)
      ensures this.url == url && this.headers == headers
    {
      this.url := url;
      this.headers := headers;
    }

    /** `setHeader`: one stored header set, the others kept. */
    method SetHeader(key: string, value: string)
      modifies this
      ensures headers == old(headers)[key := value]
      ensures key in headers && headers[key] == value
      ensures forall k :: k != key ==>
        (k in headers <==> k in old(headers)) && (k in headers ==> headers[k] == old(headers)[k])
    {
      headers := headers[key := value];
    }

    /** The options the instance `get` hands to the static `get`: never a
        body. */
    function Get(o: CallOptions): (r: RequestOptions)
      reads this
      ensures r.verb == GET && r.body.Absent? && r.url == url + o.path.GetOr("")
      ensures CallHeaders(headers, o, r)
    {
      Bind(url, headers, GET, o.(body := Absent))
    }

    /** The options the instance `post` hands to the static `post`. */
    function Post(o: CallOptions): (r: RequestOptions)
      reads this
      ensures r.verb == POST && r.body == o.body && r.url == url + o.path.GetOr("")
      ensures CallHeaders(headers, o, r)
    {
      Bind(url, headers, POST, o)
    }

    /** The options the instance `request` hands to the static `request`. */
    function Request(verb: Method, o: CallOptions): (r: RequestOptions)
      reads this
      ensures r.verb == verb && r.body == o.body && r.url == url + o.path.GetOr("")
      ensures CallHeaders(headers, o, r)
    {
      Bind(url, headers, verb, o)
    }
  }

  /** The stored headers overridden key by key by the call's own; the
      query and status check are the call's. */
  ghost predicate CallHeaders(stored: Headers, o: CallOptions, r: RequestOptions) {
    && r.headers.Some?
    && r.headers.value.Keys == stored.Keys + o.headers.GetOr(map[]).Keys
    && (forall k :: k in r.headers.value ==>
          r.headers.value[k] == if k in o.headers.GetOr(map[]) then o.headers.GetOr(map[])[k] else stored[k])
    && r.query == o.query && r.validateStatus == o.validateStatus
  }

  /** What an instance method of a client with base URL `base` and stored
      headers `stored` hands on: the URL is the base followed by the path
      (or nothing), the headers are the stored ones overridden key by key by
      the call's own, and the rest is the call's. */
  function Bind(base: string, stored: Headers, verb: Method, o: CallOptions): (r: RequestOptions)
    ensures r.verb == verb && r.body == o.body
    ensures r.url == base + o.path.GetOr("")
    ensures o.path.GetOr("") == "" ==> r.url == base
    ensures CallHeaders(stored, o, r)
  {
    RequestOptions(verb, base + o.path.GetOr(""), o.body,
                   Some(MergeHeaders(stored, o.headers.GetOr(map[]))), o.query, o.validateStatus)
  }

  /** A header set with `SetHeader` reaches every later instance request
      unless that request names the same header itself. */
  lemma SetHeaderReachesLaterRequests(stored: Headers, key: string, value: string, perCall: Headers)
    ensures MergeHeaders(stored[key := value], perCall)[key]
            == if key in perCall then perCall[key] else value
  {
  }

  /** Content-Type is always sent and always the one `processBody` chose,
      whatever the caller put under that key. */
  lemma ContentTypeAlwaysSent(opts: RequestOptions)
    ensures Prepare(opts).headers["Content-Type"] == ProcessBody(opts.body).1
    ensures opts.body.Absent? ==> Prepare(opts).headers["Content-Type"] == ""
  {
  }
}

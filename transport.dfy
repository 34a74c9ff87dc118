/**
 * The transport (`statuspageio.http_client.HttpClient`): building the outgoing request,
 * interpreting the response, and the client object whose rate-limit history and session
 * headers change from call to call.
 *
 * The HTTP exchange itself is abstract: `Request` is given the server as a function from
 * the request it sends to the response it gets back.
 */
module Transport {
  import opened Wrappers
  import opened Json
  import opened Errors
  import opened Envelope
  import opened RateLimit
  import opened Configuration

  newtype byte = x: int | 0 <= x < 256

  type Headers = map<string, string>

  /** The keyword arguments `request` looks at: `raw`, `headers` (when it is a dict) and `container`. */
  datatype Options = Options(raw: bool, headers: Option<Headers>, container: Option<string>)

  /** What `request` hands to the session: the arguments of `session.request`. */
  datatype Outgoing = Outgoing(
    verb: string,
    url: string,
    params: Option<map<string, string>>,
    headers: Headers,
    payload: Option<Json>,
    timeout: real,
    verify: bool)

  /**
   * What the exchange gives back. `contentType` is the value of the `Content-Type` header
   * if the response has one; `json` is what `resp.json()` decodes, `None` when it raises.
   */
  datatype Response = Response(
    status: int,
    headers: Headers,
    contentType: Option<string>,
    json: Option<Json>,
    content: seq<byte>,
    text: string)

  /** The third element of the returned tuple: decoded JSON, or the raw content. */
  datatype Body = Decoded(value: Unwrapped) | Content(bytes: seq<byte>)

  /** The tuple `(status_code, headers, body)` of a successful request. */
  datatype Reply = Reply(status: int, headers: Headers, body: Body)

  const FormContentType: string := "application/x-www-form-urlencoded"
  const JsonContentType: string := "application/json"

  /**
   * The full URL: protocol, host, API version and the caller's path joined with `/`.
   * The path is appended verbatim: a leading slash is not collapsed.
   */
  function Url(config: Config, path: string): (url: string)
    ensures var base := "https://api.statuspage.io/" + config.apiVersion + "/";
            url == base + path && url[|base|..] == path
  {
    config.protocol + "://" + config.apiBaseUrl + "/" + config.apiVersion + "/" + path
  }

  /** The per-call headers: OAuth authorization, and a JSON content type exactly when a body is sent. */
  function RequestHeaders(apiKey: string, hasBody: bool): (h: Headers)
    ensures h.Keys == {"Content-Type", "Authorization"}
    ensures h["Authorization"] == "OAuth " + apiKey
    ensures h["Content-Type"] == JsonContentType <==> hasBody
    ensures h["Content-Type"] == FormContentType <==> !hasBody
  {
    map["Content-Type" := if hasBody then JsonContentType else FormContentType,
        "Authorization" := "OAuth " + apiKey]
  }

  /** The caller's extra headers, merged into the session; none when absent or not a dict. */
  function UserHeaders(opts: Options): (h: Headers)
  {
    if opts.headers.Some? then opts.headers.value else map[]
  }

  /** An enveloped body needs a container name. */
  predicate NeedsContainer(body: Option<Json>, opts: Options)
  {
    body.Some? && !opts.raw && opts.container.None?
  }

  /**
   * `body` is `None` when the caller passes no body. `Some(JNull)` has no counterpart
   * in the source, where Python's only `None` means "no body"; here it is sent as a body.
   *
   * The request shaping of `request`: the URL, the headers, and the payload, which is the
   * body itself in raw mode and the body under the container name otherwise. It fails with
   * the `TypeError` when there is no API key and with the `KeyError` when an enveloped body
   * has no container name.
   */
  function BuildRequest(
    config: Config, verb: string, path: string, params: Option<map<string, string>>,
    body: Option<Json>, opts: Options): (r: Result<Outgoing, Error>)
    ensures r.Failure? <==> config.apiKey.None? || NeedsContainer(body, opts)
    ensures config.apiKey.None? ==> r == Failure(MissingApiKey)
    ensures config.apiKey.Some? && NeedsContainer(body, opts) ==> r == Failure(MissingContainer)
    ensures r.Success? ==>
              && r.value.verb == verb && r.value.params == params
              && r.value.url == "https://api.statuspage.io/" + config.apiVersion + "/" + path
              && r.value.headers == RequestHeaders(config.apiKey.value, body.Some?)
              && r.value.headers.Keys == {"Content-Type", "Authorization"}
              && r.value.headers["Authorization"] == "OAuth " + config.apiKey.value
              && (r.value.headers["Content-Type"] == JsonContentType <==> body.Some?)
              && (r.value.headers["Content-Type"] == FormContentType <==> body.None?)
              && r.value.timeout == config.timeoutInSeconds as real
              && r.value.verify == config.verifySsl
    ensures r.Success? && body.None? ==> r.value.payload.None?
    ensures r.Success? && body.Some? && opts.raw ==> r.value.payload == body
    ensures r.Success? && body.Some? && !opts.raw ==>
              r.value.payload == Some(Wrap(opts.container.value, body.value))
  {
    if config.apiKey.None? then Failure(MissingApiKey)
    else if NeedsContainer(body, opts) then Failure(MissingContainer)
    else
      var payload :=
        if body.None? then None
        else if opts.raw then body
        else Some(Wrap(opts.container.value, body.value));
      Success(Outgoing(
        verb, Url(config, path), params, RequestHeaders(config.apiKey.value, body.Some?),
        payload, config.timeoutInSeconds as real, config.verifySsl))
  }

  /** What the session sends: its persistent headers, overridden by the per-call ones. */
  function Dispatched(session: Headers, out: Outgoing): (sent: Outgoing)
    ensures sent.headers.Keys == session.Keys + out.headers.Keys
    ensures forall k :: k in out.headers ==> sent.headers[k] == out.headers[k]
    ensures forall k :: k in session && k !in out.headers ==> sent.headers[k] == session[k]
    ensures sent.(headers := out.headers) == out
  {
    out.(headers := session + out.headers)
  }

  /** The content type names JSON when it contains `json` anywhere. */
  predicate IsJsonResponse(resp: Response)
    ensures IsJsonResponse(resp) <==>
              resp.contentType.Some? && exists i :: OccursAt(resp.contentType.value, "json", i)
  {
    resp.contentType.Some? && Contains(resp.contentType.value, "json")
  }

  /** The 2xx test: the status code lies in 200..299. */
  predicate IsSuccessStatus(status: int)
  {
    200 <= status < 300
  }

  /**
   * The response half of `request`: a non-2xx status never returns normally; a 2xx JSON
   * response is decoded and, unless raw, unwrapped; any other 2xx response returns its
   * raw content.
   */
  function InterpretResponse(resp: Response, raw: bool): (r: Result<Reply, Error>)
    ensures r.Success? ==> IsSuccessStatus(resp.status)
    ensures r.Success? ==> r.value.status == resp.status && r.value.headers == resp.headers
    ensures !IsSuccessStatus(resp.status) ==>
              r == Failure(HandleErrorResponse(resp.status, resp.json, resp.text))
    ensures IsSuccessStatus(resp.status) && !IsJsonResponse(resp) ==>
              r.Success? && r.value.body == Content(resp.content)
    ensures IsSuccessStatus(resp.status) && IsJsonResponse(resp) && resp.json.None? ==>
              r == Failure(BodyDecodeError(resp.text))
    ensures IsSuccessStatus(resp.status) && IsJsonResponse(resp) && resp.json.Some? && raw ==>
              r.Success? && r.value.body == Decoded(Single(resp.json.value))
    ensures IsSuccessStatus(resp.status) && IsJsonResponse(resp) && resp.json.Some? && !raw ==>
              (r.Success? <==> Unwrap(resp.json.value).Success?) &&
              (r.Success? ==> r.value.body == Decoded(Unwrap(resp.json.value).value)) &&
              (r.Failure? ==> r.error == UnwrapTypeError)
  {
    if !IsSuccessStatus(resp.status) then
      Failure(HandleErrorResponse(resp.status, resp.json, resp.text))
    else if IsJsonResponse(resp) then
      match resp.json
      case None => Failure(BodyDecodeError(resp.text))
      case Some(decoded) =>
        if raw then Success(Reply(resp.status, resp.headers, Decoded(Single(decoded))))
        else
          match Unwrap(decoded)
          case Success(unwrapped) => Success(Reply(resp.status, resp.headers, Decoded(unwrapped)))
          case Failure(e) => Failure(e)
    else
      Success(Reply(resp.status, resp.headers, Content(resp.content)))
  }

  /**
   * A 2xx response is never turned into an HTTP error, and a non-2xx one always is: its
   * error is one of the six that `handle_error_response` raises.
   */
  lemma StatusDecidesHttpFailure(resp: Response, raw: bool)
    ensures var r := InterpretResponse(resp, raw);
            IsSuccessStatus(resp.status) ==> r.Success? || r.error.BodyDecodeError? || r.error.UnwrapTypeError?
    ensures var r := InterpretResponse(resp, raw);
            !IsSuccessStatus(resp.status) ==>
              r.Failure? &&
              (r.error.ResponseParseError? || r.error.ResourceError? || r.error.RateLimitError? ||
               r.error.RequestError? || r.error.ServerError? || r.error.UnknownHttpError?)
  {
  }

  /** Raw mode, both ways: the body is sent without an envelope and a paginated answer comes back whole. */
  lemma RawModeBypassesEnvelope(
    config: Config, verb: string, path: string, body: Json, page: seq<Json>, resp: Response)
    requires config.apiKey.Some?
    requires IsSuccessStatus(resp.status) && IsJsonResponse(resp)
    requires resp.json == Some(Wrap("items", JArray(page)))
    ensures var opts := Options(true, None, None);
            var built := BuildRequest(config, verb, path, None, Some(body), opts);
            built.Success? && built.value.payload == Some(body)
    ensures InterpretResponse(resp, true).value.body == Decoded(Single(Wrap("items", JArray(page))))
    ensures InterpretResponse(resp, false).value.body == Decoded(Many(page))
  {
    WrapItemsThenUnwrap(page);
  }

  class HttpClient {
    const config: Config
    const maxRequests: int
    const windowSeconds: real
    /** The timestamps of the responses the hook has seen, pruned on every run. */
    var requestHistory: seq<real>
    /** The session's persistent headers, to which per-call headers stick. */
    var sessionHeaders: Headers

    constructor (config: Config)
      ensures this.config == config
      ensures maxRequests == config.maxRequests && windowSeconds == config.windowSeconds
      ensures requestHistory == [] && sessionHeaders == map[]
    {
      this.config := config;
      maxRequests := config.maxRequests;
      windowSeconds := config.windowSeconds;
      requestHistory := [];
      sessionHeaders := map[];
    }

    /**
     * `handle_rate_limit` at time `now`: prune, decide, record `now`. It returns the wait
     * instead of sleeping; when `min` raises, nothing is recorded.
     */
    method HandleRateLimit(now: real) returns (gate: Gate)
      modifies this`requestHistory
      ensures gate == Decide(Prune(old(requestHistory), now, windowSeconds), now, maxRequests, windowSeconds)
      ensures requestHistory == NextHistory(old(requestHistory), now, maxRequests, windowSeconds)
      ensures !gate.EmptyMinError? ==>
                |requestHistory| == |Prune(old(requestHistory), now, windowSeconds)| + 1 &&
                requestHistory[|requestHistory| - 1] == now
    {
      var kept: seq<real> := [];
      var i := 0;
      while i < |requestHistory|
        invariant 0 <= i <= |requestHistory|
        invariant kept == Prune(requestHistory[..i], now, windowSeconds)
      {
        assert requestHistory[..i + 1][..i] == requestHistory[..i];
        if now - requestHistory[i] <= windowSeconds {
          kept := kept + [requestHistory[i]];
        }
        i := i + 1;
      }
      assert requestHistory[..i] == requestHistory;
      requestHistory := kept;

      if |requestHistory| >= maxRequests {
        if |requestHistory| == 0 {
          gate := EmptyMinError;
          return;
        }
        var wait := windowSeconds - (now - Min(requestHistory));
        gate := Sleep(if wait > 0.0 then wait else 0.0);
      } else {
        gate := Admit;
      }

      requestHistory := requestHistory + [now];
    }

    /**
     * `body` is as for `BuildRequest`: `Some(JNull)` has no counterpart in the source.
     *
     * `request`: shape the call, update the session headers, run the exchange, run the
     * rate-limit hook at time `now` (the session calls it on the response, before `request`
     * looks at it), then interpret the response.
     */
    method Request(
      verb: string, path: string, params: Option<map<string, string>>, body: Option<Json>,
      opts: Options, now: real, server: Outgoing -> Response)
      returns (r: Result<Reply, Error>)
      modifies this`requestHistory, this`sessionHeaders
      ensures sessionHeaders ==
                if config.apiKey.None? then old(sessionHeaders) else old(sessionHeaders) + UserHeaders(opts)
      ensures var built := BuildRequest(config, verb, path, params, body, opts);
              built.Failure? ==> r == Failure(built.error) && requestHistory == old(requestHistory)
      ensures var built := BuildRequest(config, verb, path, params, body, opts);
              built.Success? ==>
                var resp := server(Dispatched(sessionHeaders, built.value));
                var gate := Decide(Prune(old(requestHistory), now, windowSeconds), now, maxRequests, windowSeconds);
                && requestHistory == NextHistory(old(requestHistory), now, maxRequests, windowSeconds)
                && r == if gate.EmptyMinError? then Failure(EmptyWindowMin) else InterpretResponse(resp, opts.raw)
    {
      var built := BuildRequest(config, verb, path, params, body, opts);
      if config.apiKey.None? {
        r := Failure(MissingApiKey);
        return;
      }
      sessionHeaders := sessionHeaders + UserHeaders(opts);
      if built.Failure? {
        r := Failure(built.error);
        return;
      }
      var resp := server(Dispatched(sessionHeaders, built.value));
      var gate := HandleRateLimit(now);
      if gate.EmptyMinError? {
        r := Failure(EmptyWindowMin);
        return;
      }
      r := InterpretResponse(resp, opts.raw);
    }
  }
}

/**
 * `HttpClient` (src/network/http.ts): the default request interceptor, the
 * token slot, the three interceptor chains, the request engine with its error
 * assembly and response classification, and the opening of an SSE stream.
 * `fetch`, reading a response body and the URL parser are parameters.
 */
module Client {
  import opened Wrappers
  import opened Text
  import opened JsValue
  import opened Url
  import opened Body
  import opened Sse

  datatype Method = GET | POST | PUT | PATCH | DELETE

  type Headers = map<string, string>

  /** `HttpRequestConfig`; an absent `body` is `Undefined`. */
  datatype RequestConfig = RequestConfig(
    url: string,
    httpMethod: Option<Method>,
    baseURL: Option<string>,
    headers: Option<Headers>,
    params: Option<seq<(string, Value)>>,
    body: Value,
    timeoutMs: Option<int>,
    json: Option<bool>)

  /** A decoded response body: `res.json()`, `res.text()` or `res.arrayBuffer()`. */
  datatype Data = JsonData(value: Value) | TextData(text: string) | BinaryData(bytes: seq<bv8>)

  /** `HttpResponse`. */
  datatype Response = Response(status: int, statusText: string, headers: Headers, data: Data, request: RequestConfig)

  /** A thrown value: an `HttpError` made by the client, or any other value. */
  datatype Failure =
    | HttpError(message: string, status: Option<int>, data: Option<Data>, request: Option<RequestConfig>)
    | Thrown(value: Value)

  /** A request interceptor: the default one installed by the constructor,
      or one registered later, which returns a config or throws. */
  datatype RequestInterceptor =
    | DefaultRequestInterceptor
    | RequestHook(run: RequestConfig -> Result<RequestConfig, Failure>)

  datatype ResponseInterceptor =
    | DefaultResponseInterceptor
    | ResponseHook(run: Response -> Result<Response, Failure>)

  /** What an error interceptor does with an error: return (the error stays)
      or throw (the thrown value becomes the error). */
  datatype ErrorStep = Returned | Threw(error: Failure)

  datatype ErrorInterceptor =
    | DefaultErrorInterceptor
    | ErrorHook(run: (Failure, Option<RequestConfig>) -> ErrorStep)

  /** The state of an `HttpClient`; `token` is the `access_token` slot of
      local storage. */
  datatype ClientState = ClientState(
    baseURL: string,
    token: Option<string>,
    requestInterceptors: seq<RequestInterceptor>,
    responseInterceptors: seq<ResponseInterceptor>,
    errorInterceptors: seq<ErrorInterceptor>)

  // ---------------------------------------------------------------- token

  /** `setToken`: a null or empty token removes the stored one. */
  function StoreToken(token: Option<string>): Option<string>
  {
    if token.None? || token.value == "" then None else token
  }

  /** `getToken`: the stored token, or the empty string. */
  function ReadToken(slot: Option<string>): string
  {
    slot.GetOr("")
  }

  /** Reading the token back gives what was set, null reading as empty. */
  lemma TokenRoundTrip(token: Option<string>)
    ensures ReadToken(StoreToken(token)) == token.GetOr("")
    ensures StoreToken(token).Some? ==> StoreToken(token).value != ""
  {
  }

  // ------------------------------------------------------------- defaults

  const AcceptDefault: string := "application/json, text/plain, */*"
  const JsonContentType: string := "application/json"
  const DefaultTimeoutMs: int := 30000

  /** The headers every request starts from, before the caller's. */
  function BaselineHeaders(): Headers
  {
    map["Accept" := AcceptDefault, "X-Requested-With" := "XMLHttpRequest"]
  }

  /** `!headers[k]`: absent or empty. */
  predicate Unset(h: Headers, k: string)
  {
    k !in h || h[k] == ""
  }

  /** The header object the default request interceptor builds: the
      baseline, the caller's headers over it, then `Content-Type` and
      `Authorization` filled in where missing. */
  function DefaultHeaders(config: RequestConfig, token: string): Headers
  {
    var merged := BaselineHeaders() + config.headers.GetOr(map[]);
    var typed :=
      if JsonRule(config.json, config.body) && Unset(merged, "Content-Type")
      then merged["Content-Type" := JsonContentType] else merged;
    if token != "" && Unset(typed, "Authorization")
    then typed["Authorization" := "Bearer " + token] else typed
  }

  /** The default request interceptor installed by the constructor; it
      reads the client's `baseURL` and token when it runs. */
  function DefaultRequest(config: RequestConfig, baseURL: string, token: string): RequestConfig
  {
    config.(
      baseURL := Some(config.baseURL.GetOr(baseURL)),
      timeoutMs := Some(config.timeoutMs.GetOr(DefaultTimeoutMs)),
      headers := Some(DefaultHeaders(config, token)))
  }

  /** Headers: a non-empty caller header is kept as given, and any caller
      header but `Content-Type` and `Authorization` is kept even when empty,
      overriding the baseline; the baseline fills in `Accept` and
      `X-Requested-With` when the caller gives none; `Content-Type` becomes
      `application/json` exactly when the JSON rule holds and none was
      given; `Authorization: Bearer <token>` is added exactly when the token
      is non-empty and none was given; no other header appears. */
  lemma DefaultHeadersSpec(config: RequestConfig, token: string)
    ensures var h, r := config.headers.GetOr(map[]), DefaultHeaders(config, token);
      && (forall k :: k in h && h[k] != "" ==> k in r && r[k] == h[k])
      && (forall k :: k in h && k != "Content-Type" && k != "Authorization" ==> k in r && r[k] == h[k])
      && ("Accept" !in h ==> "Accept" in r && r["Accept"] == AcceptDefault)
      && ("X-Requested-With" !in h ==> "X-Requested-With" in r && r["X-Requested-With"] == "XMLHttpRequest")
      && (JsonRule(config.json, config.body) && Unset(h, "Content-Type") ==>
            "Content-Type" in r && r["Content-Type"] == JsonContentType)
      && (!JsonRule(config.json, config.body) ==>
            ("Content-Type" in r <==> "Content-Type" in h) && ("Content-Type" in h ==> r["Content-Type"] == h["Content-Type"]))
      && (token != "" && Unset(h, "Authorization") ==>
            "Authorization" in r && r["Authorization"] == "Bearer " + token)
      && (token == "" ==>
            ("Authorization" in r <==> "Authorization" in h) && ("Authorization" in h ==> r["Authorization"] == h["Authorization"]))
      && (forall k :: k in r ==> k in h || k in BaselineHeaders() || k == "Content-Type" || k == "Authorization")
  {
  }

  /** Config: an explicit `baseURL` or `timeoutMs` is kept, a missing one
      becomes the client's `baseURL` and 30000; every other field but the
      headers is unchanged. */
  lemma DefaultRequestSpec(config: RequestConfig, baseURL: string, token: string)
    ensures var r := DefaultRequest(config, baseURL, token);
      && r.baseURL == Some(if config.baseURL.Some? then config.baseURL.value else baseURL)
      && r.timeoutMs == Some(if config.timeoutMs.Some? then config.timeoutMs.value else DefaultTimeoutMs)
      && r.headers == Some(DefaultHeaders(config, token))
      && r.url == config.url && r.httpMethod == config.httpMethod && r.params == config.params
      && r.body == config.body && r.json == config.json
  {
  }

  /** Running the default interceptor a second time changes nothing. */
  lemma DefaultRequestIdempotent(config: RequestConfig, baseURL: string, token: string)
    ensures DefaultRequest(DefaultRequest(config, baseURL, token), baseURL, token) == DefaultRequest(config, baseURL, token)
  {
    var once := DefaultRequest(config, baseURL, token);
    var h := DefaultHeaders(config, token);
    assert "Accept" in h && "X-Requested-With" in h;
    var merged := BaselineHeaders() + h;
    assert merged == h;
    var again := DefaultHeaders(once, token);
    assert JsonRule(once.json, once.body) ==> !Unset(h, "Content-Type");
    assert token != "" ==> !Unset(h, "Authorization");
    assert again == h;
  }

  /** `abortAfter`: a timer, firing after `timeoutMs`, exactly when the
      timeout is present and positive. */
  function AbortAfter(timeoutMs: Option<int>): (r: Option<int>)
    ensures r.Some? <==> timeoutMs.Some? && timeoutMs.value > 0
    ensures r.Some? ==> r == timeoutMs
  {
    if timeoutMs.None? || timeoutMs.value <= 0 then None else timeoutMs
  }

  /** A request that gives no timeout gets the 30-second timer. */
  lemma DefaultTimeoutArmsTimer(config: RequestConfig, baseURL: string, token: string)
    requires config.timeoutMs.None?
    ensures AbortAfter(DefaultRequest(config, baseURL, token).timeoutMs) == Some(DefaultTimeoutMs)
  {
  }

  // --------------------------------------------------------------- chains

  function ApplyRequest(it: RequestInterceptor, c: RequestConfig, baseURL: string, token: string): Result<RequestConfig, Failure>
  {
    match it
    case DefaultRequestInterceptor => Ok(DefaultRequest(c, baseURL, token))
    case RequestHook(f) => f(c)
  }

  /** `runRequestInterceptors`: each interceptor gets the previous one's
      config; the first throw ends the chain. */
  function RunRequestChain(its: seq<RequestInterceptor>, c: RequestConfig, baseURL: string, token: string): Result<RequestConfig, Failure>
    decreases |its|
  {
    if its == [] then Ok(c)
    else match ApplyRequest(its[0], c, baseURL, token)
      case Err(e) => Err(e)
      case Ok(next) => RunRequestChain(its[1..], next, baseURL, token)
  }

  /** Chains compose in registration order: running `a + b` is running `a`
      and feeding its result to `b`. */
  lemma {:induction false} RequestChainAppend(a: seq<RequestInterceptor>, b: seq<RequestInterceptor>, c: RequestConfig, baseURL: string, token: string)
    ensures RunRequestChain(a + b, c, baseURL, token) ==
      match RunRequestChain(a, c, baseURL, token)
      case Err(e) => Err(e)
      case Ok(mid) => RunRequestChain(b, mid, baseURL, token)
    decreases |a|
  {
    if a == [] {
      assert a + b == b;
    } else {
      assert (a + b)[0] == a[0];
      assert (a + b)[1..] == a[1..] + b;
      match ApplyRequest(a[0], c, baseURL, token)
      case Err(e) =>
      case Ok(next) => RequestChainAppend(a[1..], b, next, baseURL, token);
    }
  }

  function ApplyResponse(it: ResponseInterceptor, r: Response): Result<Response, Failure>
  {
    match it
    case DefaultResponseInterceptor => Ok(r)
    case ResponseHook(f) => f(r)
  }

  /** `runResponseInterceptors`. */
  function RunResponseChain(its: seq<ResponseInterceptor>, r: Response): Result<Response, Failure>
    decreases |its|
  {
    if its == [] then Ok(r)
    else match ApplyResponse(its[0], r)
      case Err(e) => Err(e)
      case Ok(next) => RunResponseChain(its[1..], next)
  }

  lemma {:induction false} ResponseChainAppend(a: seq<ResponseInterceptor>, b: seq<ResponseInterceptor>, r: Response)
    ensures RunResponseChain(a + b, r) ==
      match RunResponseChain(a, r)
      case Err(e) => Err(e)
      case Ok(mid) => RunResponseChain(b, mid)
    decreases |a|
  {
    if a == [] {
      assert a + b == b;
    } else {
      assert (a + b)[0] == a[0];
      assert (a + b)[1..] == a[1..] + b;
      match ApplyResponse(a[0], r)
      case Err(e) =>
      case Ok(next) => ResponseChainAppend(a[1..], b, next);
    }
  }

  /** Default response interceptors alone return the response unchanged. */
  lemma {:induction false} DefaultResponseChainIsIdentity(its: seq<ResponseInterceptor>, r: Response)
    requires forall i :: 0 <= i < |its| ==> its[i] == DefaultResponseInterceptor
    ensures RunResponseChain(its, r) == Ok(r)
    decreases |its|
  {
    if its != [] {
      DefaultResponseChainIsIdentity(its[1..], r);
    }
  }

  function ApplyError(it: ErrorInterceptor, err: Failure, req: Option<RequestConfig>): Failure
  {
    match it
    case DefaultErrorInterceptor => err
    case ErrorHook(f) => (match f(err, req) case Returned => err case Threw(e) => e)
  }

  /** `runErrorInterceptors`: the value it finally throws. A thrown value
      replaces the current error, a return leaves it; the chain never
      returns normally, which is why the result is a `Failure`. */
  function RunErrorChain(its: seq<ErrorInterceptor>, err: Failure, req: Option<RequestConfig>): Failure
    decreases |its|
  {
    if its == [] then err else RunErrorChain(its[1..], ApplyError(its[0], err, req), req)
  }

  lemma {:induction false} ErrorChainAppend(a: seq<ErrorInterceptor>, b: seq<ErrorInterceptor>, err: Failure, req: Option<RequestConfig>)
    ensures RunErrorChain(a + b, err, req) == RunErrorChain(b, RunErrorChain(a, err, req), req)
    decreases |a|
  {
    if a == [] {
      assert a + b == b;
    } else {
      assert (a + b)[0] == a[0];
      assert (a + b)[1..] == a[1..] + b;
      ErrorChainAppend(a[1..], b, ApplyError(a[0], err, req), req);
    }
  }

  /** The last interceptor that throws decides the error. */
  lemma ErrorChainLastThrowWins(its: seq<ErrorInterceptor>, err: Failure, req: Option<RequestConfig>, f: (Failure, Option<RequestConfig>) -> ErrorStep)
    requires its != [] && its[|its| - 1] == ErrorHook(f)
    requires f(RunErrorChain(its[..|its| - 1], err, req), req).Threw?
    ensures RunErrorChain(its, err, req) == f(RunErrorChain(its[..|its| - 1], err, req), req).error
  {
    var n := |its| - 1;
    assert its == its[..n] + [its[n]];
    ErrorChainAppend(its[..n], [its[n]], err, req);
  }

  /** Interceptors that only return leave the original error to be thrown;
      the default one rethrows it. */
  lemma {:induction false} ErrorChainKeepsError(its: seq<ErrorInterceptor>, err: Failure, req: Option<RequestConfig>)
    requires forall i :: 0 <= i < |its| ==> its[i] == DefaultErrorInterceptor || (its[i].ErrorHook? && its[i].run(err, req) == Returned)
    ensures RunErrorChain(its, err, req) == err
    decreases |its|
  {
    if its != [] {
      assert ApplyError(its[0], err, req) == err;
      ErrorChainKeepsError(its[1..], err, req);
    }
  }

  // ------------------------------------------------------ request engine

  /** How `fetch` is to signal cancellation: no signal, a timer, or the
      close function handed out by `sse`. */
  datatype Signal = NoSignal | TimeoutSignal(ms: int) | CloseSignal

  /** The `RequestInit` passed to `fetch`. */
  datatype FetchInit = FetchInit(httpMethod: Method, headers: Option<Headers>, body: Option<Value>, signal: Signal)

  /** What `fetch` resolves with, before its body is read. */
  datatype RawResponse = RawResponse(status: int, statusText: string, headers: Headers, contentType: Option<string>, hasBody: bool)

  /** Which reader is used on the body. */
  datatype BodyFormat = JsonFormat | TextFormat | BinaryFormat

  /** The environment: the page origin, the URL parser and `JSON.stringify`,
      `fetch`, and the body readers, each of which may throw. */
  datatype Platform = Platform(
    env: UrlEnv,
    fetch: (BuiltUrl, FetchInit) -> Result<RawResponse, Failure>,
    read: (RawResponse, BodyFormat) -> Result<Data, Failure>)

  /** `res.ok`. */
  predicate IsOk(status: int)
  {
    200 <= status <= 299
  }

  /** The body reader chosen from the `content-type` header. */
  function Classify(contentType: string): BodyFormat
  {
    if Includes(contentType, "application/json") then JsonFormat
    else if Includes(contentType, "text/") then TextFormat
    else BinaryFormat
  }

  /** JSON wins over text, text over binary, binary is the fallback. */
  lemma ClassifySpec(contentType: string)
    ensures Classify(contentType) == JsonFormat <==> Includes(contentType, "application/json")
    ensures Classify(contentType) == TextFormat <==> !Includes(contentType, "application/json") && Includes(contentType, "text/")
    ensures Classify(contentType) == BinaryFormat <==> !Includes(contentType, "application/json") && !Includes(contentType, "text/")
  {
  }

  lemma ClassifyExamples()
    ensures Classify("application/json; charset=utf-8") == JsonFormat
    ensures Classify("text/plain") == TextFormat
    ensures Classify("") == BinaryFormat
  {
    IncludesAtStart("application/json; charset=utf-8", "application/json");
    IncludesAtStart("text/plain", "text/");
    assert !Includes("text/plain", "application/json");
  }

  /** The message of a failed response: for plain-object data, `message`,
      else `error`, else the status text, as `String()` prints it; for any
      other data, the status text. */
  function ErrorMessage(data: Data, statusText: string): string
  {
    if data.JsonData? && IsPlainObject(data.value) then
      JsString(Coalesce(Get(data.value, "message"), Coalesce(Get(data.value, "error"), Str(statusText))))
    else statusText
  }

  lemma ErrorMessageSpec(data: Data, statusText: string)
    ensures !(data.JsonData? && data.value.Obj?) ==> ErrorMessage(data, statusText) == statusText
    ensures data.JsonData? && data.value.Obj? && !IsNullish(Get(data.value, "message")) ==>
      ErrorMessage(data, statusText) == JsString(Get(data.value, "message"))
    ensures data.JsonData? && data.value.Obj? && IsNullish(Get(data.value, "message")) && !IsNullish(Get(data.value, "error")) ==>
      ErrorMessage(data, statusText) == JsString(Get(data.value, "error"))
    ensures data.JsonData? && data.value.Obj? && IsNullish(Get(data.value, "message")) && IsNullish(Get(data.value, "error")) ==>
      ErrorMessage(data, statusText) == statusText
  {
  }

  /** The `HttpError` of a non-2xx response. */
  function StatusError(res: RawResponse, data: Data, final: RequestConfig): Failure
  {
    HttpError("HTTP " + IntToString(res.status) + " " + ErrorMessage(data, res.statusText),
              Some(res.status), Some(data), Some(final))
  }

  /** `final.baseURL || this.baseURL`. */
  function EffectiveBase(final: RequestConfig, baseURL: string): string
  {
    if final.baseURL.Some? && final.baseURL.value != "" then final.baseURL.value else baseURL
  }

  /** The `RequestInit` of `request`. */
  function RequestInit(final: RequestConfig, stringify: Value -> string): FetchInit
  {
    var timer := AbortAfter(final.timeoutMs);
    FetchInit(final.httpMethod.GetOr(GET), final.headers,
              RequestBody(final.json, final.body, stringify),
              if timer.Some? then TimeoutSignal(timer.value) else NoSignal)
  }

  function Wrap(res: RawResponse, data: Data, final: RequestConfig): Response
  {
    Response(res.status, res.statusText, res.headers, data, final)
  }

  /** The `catch` path: the error chain run with the config as the caller
      passed it. */
  function Caught(st: ClientState, e: Failure, config: RequestConfig): Result<Response, Failure>
  {
    Err(RunErrorChain(st.errorInterceptors, e, Some(config)))
  }

  /** `request(config)`, resolved (`Ok`) or rejected (`Err`). A non-2xx
      response goes to the error chain with the final config and is not
      caught again; any other throw is caught and goes to the error chain
      with the caller's config. */
  function RequestOutcome(st: ClientState, config: RequestConfig, p: Platform): Result<Response, Failure>
  {
    match RunRequestChain(st.requestInterceptors, config, st.baseURL, ReadToken(st.token))
    case Err(e) => Caught(st, e, config)
    case Ok(final) =>
      var url := UrlFor(EffectiveBase(final, st.baseURL), final.url, final.params, p.env);
      match p.fetch(url, RequestInit(final, p.env.stringify))
      case Err(e) => Caught(st, e, config)
      case Ok(res) =>
        match p.read(res, Classify(res.contentType.GetOr("")))
        case Err(e) => Caught(st, e, config)
        case Ok(data) =>
          if !IsOk(res.status) then Err(RunErrorChain(st.errorInterceptors, StatusError(res, data, final), Some(final)))
          else match RunResponseChain(st.responseInterceptors, Wrap(res, data, final))
            case Ok(r) => Ok(r)
            case Err(e) => Caught(st, e, config)
  }

  /** A non-2xx response rejects with the error chain's verdict on an
      `HttpError` carrying the status, the decoded body and the final
      config, and the response interceptors are never consulted. */
  lemma NonOkGoesToErrorChain(st: ClientState, config: RequestConfig, p: Platform,
                              final: RequestConfig, res: RawResponse, data: Data,
                              others: seq<ResponseInterceptor>)
    requires RunRequestChain(st.requestInterceptors, config, st.baseURL, ReadToken(st.token)) == Ok(final)
    requires p.fetch(UrlFor(EffectiveBase(final, st.baseURL), final.url, final.params, p.env), RequestInit(final, p.env.stringify)) == Ok(res)
    requires p.read(res, Classify(res.contentType.GetOr(""))) == Ok(data)
    requires !IsOk(res.status)
    ensures RequestOutcome(st, config, p) == Err(RunErrorChain(st.errorInterceptors, StatusError(res, data, final), Some(final)))
    ensures RequestOutcome(st.(responseInterceptors := others), config, p) == RequestOutcome(st, config, p)
    ensures StatusError(res, data, final).status == Some(res.status) && StatusError(res, data, final).data == Some(data)
  {
  }

  /** With the default error interceptor only, a 404 whose JSON body says
      `{"error": "not found"}` rejects with `HTTP 404 not found`. */
  lemma NotFoundMessage(res: RawResponse, final: RequestConfig)
    requires res.status == 404
    ensures RunErrorChain([DefaultErrorInterceptor], StatusError(res, JsonData(Obj([("error", Str("not found"))])), final), Some(final)).message
         == "HTTP 404 not found"
  {
    var v := Obj([("error", Str("not found"))]);
    assert Get(v, "message") == Undefined;
    assert Get(v, "error") == Str("not found");
    assert IntToString(404) == "404" by {
      assert NatToString(404) == NatToString(40) + [DigitChar(4)];
      assert NatToString(40) == NatToString(4) + [DigitChar(0)];
    }
  }

  /** With only default response interceptors, a resolved request is a 2xx
      response whose data is the decoded body. */
  lemma ResolvedMeans2xx(st: ClientState, config: RequestConfig, p: Platform)
    requires forall i :: 0 <= i < |st.responseInterceptors| ==> st.responseInterceptors[i] == DefaultResponseInterceptor
    requires RequestOutcome(st, config, p).Ok?
    ensures IsOk(RequestOutcome(st, config, p).value.status)
  {
    match RunRequestChain(st.requestInterceptors, config, st.baseURL, ReadToken(st.token))
    case Err(e) =>
    case Ok(final) =>
      var url := UrlFor(EffectiveBase(final, st.baseURL), final.url, final.params, p.env);
      match p.fetch(url, RequestInit(final, p.env.stringify))
      case Err(e) =>
      case Ok(res) =>
        match p.read(res, Classify(res.contentType.GetOr("")))
        case Err(e) =>
        case Ok(data) =>
          if IsOk(res.status) {
            DefaultResponseChainIsIdentity(st.responseInterceptors, Wrap(res, data, final));
          }
  }

  /** A throw before the response arrives reaches the error chain with the
      caller's own config. */
  lemma FetchFailureUsesCallerConfig(st: ClientState, config: RequestConfig, p: Platform, final: RequestConfig, e: Failure)
    requires RunRequestChain(st.requestInterceptors, config, st.baseURL, ReadToken(st.token)) == Ok(final)
    requires p.fetch(UrlFor(EffectiveBase(final, st.baseURL), final.url, final.params, p.env), RequestInit(final, p.env.stringify)) == Err(e)
    ensures RequestOutcome(st, config, p) == Err(RunErrorChain(st.errorInterceptors, e, Some(config)))
  {
  }

  /** The config `get` and `delete` send: the caller's options with the URL
      and the verb set; everything else, the body included, as given. */
  function Shorthand(m: Method, url: string, config: RequestConfig): (r: RequestConfig)
    ensures r.url == url && r.httpMethod == Some(m) && r.body == config.body
    ensures r.headers == config.headers && r.params == config.params && r.baseURL == config.baseURL
    ensures r.timeoutMs == config.timeoutMs && r.json == config.json
  {
    config.(url := url, httpMethod := Some(m))
  }

  /** The config `post`, `put` and `patch` send: as `Shorthand`, but the body
      is always the argument, `undefined` when none is given. */
  function ShorthandWithBody(m: Method, url: string, body: Value, config: RequestConfig): (r: RequestConfig)
    ensures r.url == url && r.httpMethod == Some(m) && r.body == body
    ensures r.headers == config.headers && r.params == config.params && r.baseURL == config.baseURL
    ensures r.timeoutMs == config.timeoutMs && r.json == config.json
  {
    config.(url := url, httpMethod := Some(m), body := body)
  }

  // ------------------------------------------------------------------ sse

  /** The options of `sse` besides the callbacks. */
  datatype SseInit = SseInit(
    httpMethod: Option<Method>,
    baseURL: Option<string>,
    headers: Option<Headers>,
    params: Option<seq<(string, Value)>>,
    body: Value,
    timeoutMs: Option<int>,
    json: Option<bool>)

  function SseBaselineHeaders(): Headers
  {
    map["Accept" := "text/event-stream", "Content-Type" := JsonContentType]
  }

  /** The body `sse` passes on: a falsy body is dropped; with `json: false`
      or a string it is kept; anything else becomes its JSON text. */
  function SseBody(body: Value, json: Option<bool>, stringify: Value -> string): (r: Value)
    ensures !Truthy(body) ==> r == Undefined
    ensures Truthy(body) && (json == Some(false) || body.Str?) ==> r == body
    ensures Truthy(body) && json != Some(false) && !body.Str? ==> r == Str(stringify(body))
  {
    if !Truthy(body) then Undefined
    else if json == Some(false) || body.Str? then body
    else Str(stringify(body))
  }

  /** The config `sse` gives the request chain. `json` is not passed on and
      the timeout defaults to 0. */
  function SseConfig(url: string, init: SseInit, stringify: Value -> string): RequestConfig
  {
    RequestConfig(url, Some(init.httpMethod.GetOr(POST)), init.baseURL,
                  Some(SseBaselineHeaders() + init.headers.GetOr(map[])), init.params,
                  SseBody(init.body, init.json, stringify), Some(init.timeoutMs.GetOr(0)), None)
  }

  /** What a successful `sse` call has set up before reading. */
  datatype SseStart = SseStart(final: RequestConfig, url: BuiltUrl, init: FetchInit, response: RawResponse)

  /** `sse` up to the start of the read loop. A throw of the request
      interceptors or of `fetch` rejects as it is, without the error chain;
      a non-2xx response and a missing body reader go through the error
      chain, whose verdict rejects. */
  function SseOpen(st: ClientState, url: string, init: SseInit, p: Platform): Result<SseStart, Failure>
  {
    match RunRequestChain(st.requestInterceptors, SseConfig(url, init, p.env.stringify), st.baseURL, ReadToken(st.token))
    case Err(e) => Err(e)
    case Ok(final) =>
      var u := UrlFor(EffectiveBase(final, st.baseURL), final.url, final.params, p.env);
      var fi := FetchInit(final.httpMethod.GetOr(POST), final.headers, ToBodyInit(final.body, false, p.env.stringify), CloseSignal);
      match p.fetch(u, fi)
      case Err(e) => Err(e)
      case Ok(res) =>
        if !IsOk(res.status) then
          var format := if Includes(res.contentType.GetOr(""), "application/json") then JsonFormat else TextFormat;
          var errBody := match p.read(res, format) case Ok(d) => d case Err(_) => JsonData(Null);
          Err(RunErrorChain(st.errorInterceptors,
                HttpError("SSE HTTP " + IntToString(res.status) + " " + res.statusText, Some(res.status), Some(errBody), Some(final)),
                Some(final)))
        else if !res.hasBody then
          Err(RunErrorChain(st.errorInterceptors, HttpError("SSE reader not available", None, None, Some(final)), Some(final)))
        else Ok(SseStart(final, u, fi, res))
  }

  /** A failing request interceptor makes `sse` reject with its error
      directly: the error interceptors do not see it. */
  lemma SseInterceptorFailureBypassesErrorChain(st: ClientState, url: string, init: SseInit, p: Platform, e: Failure)
    requires RunRequestChain(st.requestInterceptors, SseConfig(url, init, p.env.stringify), st.baseURL, ReadToken(st.token)) == Err(e)
    ensures SseOpen(st, url, init, p) == Err(e)
  {
  }

  /** An opened stream is a 2xx response with a body, fetched with the
      close signal and the body passed as is. */
  lemma SseOpenSpec(st: ClientState, url: string, init: SseInit, p: Platform)
    requires SseOpen(st, url, init, p).Ok?
    ensures var s := SseOpen(st, url, init, p).value;
      && IsOk(s.response.status) && s.response.hasBody
      && s.init.signal == CloseSignal
      && s.init.body == ToBodyInit(s.final.body, false, p.env.stringify)
      && RunRequestChain(st.requestInterceptors, SseConfig(url, init, p.env.stringify), st.baseURL, ReadToken(st.token)) == Ok(s.final)
  {
  }

  /** The stream asks for `text/event-stream` and declares a JSON body unless
      the caller's headers say otherwise. */
  lemma SseHeaders(url: string, init: SseInit, stringify: Value -> string)
    requires init.headers.None?
    ensures var h := SseConfig(url, init, stringify).headers.value;
      "Accept" in h && h["Accept"] == "text/event-stream" && "Content-Type" in h && h["Content-Type"] == JsonContentType
  {
  }

  /** How the detached read loop ends for the caller: `onDone` runs only at
      the natural end of the body; only a failed read reaches the error
      chain, whose verdict nobody handles; an abort is silent. */
  datatype StreamEnd = StreamEnd(onDone: bool, unhandled: Option<Failure>)

  function EndOfLoop(st: ClientState, final: RequestConfig, outcome: Outcome<Failure>): (r: StreamEnd)
    ensures r.onDone <==> outcome == Completed
    ensures r.unhandled.Some? <==> outcome.Failed?
    ensures outcome.Failed? ==> r.unhandled == Some(RunErrorChain(st.errorInterceptors, outcome.error, Some(final)))
  {
    match outcome
    case Completed => StreamEnd(true, None)
    case Failed(e) => StreamEnd(false, Some(RunErrorChain(st.errorInterceptors, e, Some(final))))
    case _ => StreamEnd(false, None)
  }

  // --------------------------------------------------------------- client

  /** `baseURL || import.meta.env.VITE_API_BASE_URL || '/api'`. */
  function InitialBaseURL(baseURL: string, envBaseURL: string): (r: string)
    ensures r != ""
    ensures baseURL != "" ==> r == baseURL
    ensures baseURL == "" && envBaseURL != "" ==> r == envBaseURL
  {
    if baseURL != "" then baseURL else if envBaseURL != "" then envBaseURL else "/api"
  }

  class HttpClient {
    var baseURL: string
    var token: Option<string>
    var requestInterceptors: seq<RequestInterceptor>
    var responseInterceptors: seq<ResponseInterceptor>
    var errorInterceptors: seq<ErrorInterceptor>

    function State(): ClientState
      reads this
    {
      ClientState(baseURL, token, requestInterceptors, responseInterceptors, errorInterceptors)
    }

    /** Installs the default interceptors. `envBaseURL` stands for the build
        environment's base URL and `stored` for what local storage holds. */
    constructor (base: string, envBaseURL: string, stored: Option<string>)
      ensures baseURL == InitialBaseURL(base, envBaseURL) && token == stored
      ensures requestInterceptors == [DefaultRequestInterceptor]
      ensures responseInterceptors == [DefaultResponseInterceptor]
      ensures errorInterceptors == [DefaultErrorInterceptor]
    {
      baseURL := InitialBaseURL(base, envBaseURL);
      token := stored;
      requestInterceptors := [DefaultRequestInterceptor];
      responseInterceptors := [DefaultResponseInterceptor];
      errorInterceptors := [DefaultErrorInterceptor];
    }

    method SetBaseURL(v: string)
      modifies this
      ensures State() == old(State()).(baseURL := v)
    {
      baseURL := v;
    }

    method SetToken(t: Option<string>)
      modifies this
      ensures State() == old(State()).(token := StoreToken(t))
      ensures GetToken() == t.GetOr("")
    {
      token := StoreToken(t);
    }

    function GetToken(): string
      reads this
    {
      ReadToken(token)
    }

    method UseRequestInterceptor(it: RequestInterceptor)
      modifies this
      ensures State() == old(State()).(requestInterceptors := old(requestInterceptors) + [it])
    {
      requestInterceptors := requestInterceptors + [it];
    }

    method UseResponseInterceptor(it: ResponseInterceptor)
      modifies this
      ensures State() == old(State()).(responseInterceptors := old(responseInterceptors) + [it])
    {
      responseInterceptors := responseInterceptors + [it];
    }

    method UseErrorInterceptor(it: ErrorInterceptor)
      modifies this
      ensures State() == old(State()).(errorInterceptors := old(errorInterceptors) + [it])
    {
      errorInterceptors := errorInterceptors + [it];
    }

    /** The `for ... of` loop of `runRequestInterceptors`. */
    method RunRequestInterceptors(config: RequestConfig) returns (r: Result<RequestConfig, Failure>)
      ensures r == RunRequestChain(requestInterceptors, config, baseURL, GetToken())
    {
      var c := config;
      var i := 0;
      while i < |requestInterceptors|
        invariant 0 <= i <= |requestInterceptors|
        invariant RunRequestChain(requestInterceptors[i..], c, baseURL, GetToken()) == RunRequestChain(requestInterceptors, config, baseURL, GetToken())
      {
        assert requestInterceptors[i..][1..] == requestInterceptors[i + 1..];
        var step := ApplyRequest(requestInterceptors[i], c, baseURL, GetToken());
        if step.Err? {
          return Err(step.error);
        }
        c := step.value;
        i := i + 1;
      }
      return Ok(c);
    }

    method RunResponseInterceptors(resp: Response) returns (r: Result<Response, Failure>)
      ensures r == RunResponseChain(responseInterceptors, resp)
    {
      var cur := resp;
      var i := 0;
      while i < |responseInterceptors|
        invariant 0 <= i <= |responseInterceptors|
        invariant RunResponseChain(responseInterceptors[i..], cur) == RunResponseChain(responseInterceptors, resp)
      {
        assert responseInterceptors[i..][1..] == responseInterceptors[i + 1..];
        var step := ApplyResponse(responseInterceptors[i], cur);
        if step.Err? {
          return Err(step.error);
        }
        cur := step.value;
        i := i + 1;
      }
      return Ok(cur);
    }

    /** Returns the value the chain finally throws. */
    method RunErrorInterceptors(error: Failure, request: Option<RequestConfig>) returns (thrown: Failure)
      ensures thrown == RunErrorChain(errorInterceptors, error, request)
    {
      var err := error;
      for i := 0 to |errorInterceptors|
        invariant RunErrorChain(errorInterceptors[i..], err, request) == RunErrorChain(errorInterceptors, error, request)
      {
        assert errorInterceptors[i..][1..] == errorInterceptors[i + 1..];
        match errorInterceptors[i] {
          case DefaultErrorInterceptor =>
          case ErrorHook(f) =>
            var step := f(err, request);
            if step.Threw? {
              err := step.error;
            }
        }
      }
      assert errorInterceptors[|errorInterceptors|..] == [];
      return err;
    }

    /** `request(config)`. */
    method Request(config: RequestConfig, p: Platform) returns (r: Result<Response, Failure>)
      ensures r == RequestOutcome(State(), config, p)
    {
      var chained := RunRequestInterceptors(config);
      if chained.Err? {
        var e := RunErrorInterceptors(chained.error, Some(config));
        return Err(e);
      }
      var final := chained.value;
      var url := BuildUrl(EffectiveBase(final, baseURL), final.url, final.params, p.env);
      var fetched := p.fetch(url, RequestInit(final, p.env.stringify));
      if fetched.Err? {
        var e := RunErrorInterceptors(fetched.error, Some(config));
        return Err(e);
      }
      var res := fetched.value;
      var read := p.read(res, Classify(res.contentType.GetOr("")));
      if read.Err? {
        var e := RunErrorInterceptors(read.error, Some(config));
        return Err(e);
      }
      var data := read.value;
      if !IsOk(res.status) {
        var e := RunErrorInterceptors(StatusError(res, data, final), Some(final));
        return Err(e);
      }
      var wrapped := RunResponseInterceptors(Wrap(res, data, final));
      if wrapped.Err? {
        var e := RunErrorInterceptors(wrapped.error, Some(config));
        return Err(e);
      }
      return Ok(wrapped.value);
    }

    method Get(url: string, config: RequestConfig, p: Platform) returns (r: Result<Response, Failure>)
      ensures r == RequestOutcome(State(), Shorthand(GET, url, config), p)
    {
      r := Request(Shorthand(GET, url, config), p);
    }

    method Delete(url: string, config: RequestConfig, p: Platform) returns (r: Result<Response, Failure>)
      ensures r == RequestOutcome(State(), Shorthand(DELETE, url, config), p)
    {
      r := Request(Shorthand(DELETE, url, config), p);
    }

    method Post(url: string, body: Value, config: RequestConfig, p: Platform) returns (r: Result<Response, Failure>)
      ensures r == RequestOutcome(State(), ShorthandWithBody(POST, url, body, config), p)
    {
      r := Request(ShorthandWithBody(POST, url, body, config), p);
    }

    method Put(url: string, body: Value, config: RequestConfig, p: Platform) returns (r: Result<Response, Failure>)
      ensures r == RequestOutcome(State(), ShorthandWithBody(PUT, url, body, config), p)
    {
      r := Request(ShorthandWithBody(PUT, url, body, config), p);
    }

    method Patch(url: string, body: Value, config: RequestConfig, p: Platform) returns (r: Result<Response, Failure>)
      ensures r == RequestOutcome(State(), ShorthandWithBody(PATCH, url, body, config), p)
    {
      r := Request(ShorthandWithBody(PATCH, url, body, config), p);
    }

    /** `sse(url, init)`: opens the stream and runs the read loop over the
        inputs the body delivers, returning what was handed to `onEvent`,
        whether `onDone` ran and what reached the error chain unhandled. */
    method OpenStream(url: string, init: SseInit, p: Platform, inputs: seq<Input<Failure>>)
      returns (started: Result<SseStart, Failure>, events: seq<string>, end: StreamEnd)
      ensures started == SseOpen(State(), url, init, p)
      ensures started.Err? ==> events == [] && end == StreamEnd(false, None)
      ensures started.Ok? ==> events == Stream("", false, inputs).0
      ensures started.Ok? ==> end == EndOfLoop(State(), started.value.final, Stream("", false, inputs).1)
    {
      started := SseOpen(State(), url, init, p);
      events := [];
      end := StreamEnd(false, None);
      if started.Ok? {
        var reader := new SseReader();
        var outcome;
        events, outcome := reader.ReadLoop(inputs);
        end := EndOfLoop(State(), started.value.final, outcome);
      }
    }
  }
}

/**
 * The chat helpers of src/network/openai.ts: the streamed request body, the
 * callbacks one parsed stream chunk fires, the handling of a stream that
 * fails to open, and the history truncation `buildHistory`.
 */
module OpenAI {
  import opened Wrappers
  import opened JsValue
  import opened Client

  const ChatCompletionsPath: string := "/v1/chat/completions"
  const DefaultHistoryLimit: int := 50

  datatype Role = System | User | Assistant
  datatype Message = Message(role: Role, content: string)

  // ----------------------------------------------------------- request

  /** `{ ...payload, stream: true }`. */
  function StreamPayload(payload: seq<(string, Value)>): seq<(string, Value)>
  {
    SetProperty(payload, "stream", Bool(true))
  }

  /** The options `streamChatCompletion` passes to `sse`. */
  function ChatInit(payload: seq<(string, Value)>): SseInit
  {
    SseInit(Some(POST), None, None, None, Obj(StreamPayload(payload)), None, None)
  }

  /** The streamed payload has `stream` set to `true`, whatever the caller
      passed, and every other field as given. */
  lemma StreamIsForced(payload: seq<(string, Value)>, field: string)
    requires field != "stream"
    ensures Lookup(StreamPayload(payload), "stream") == Bool(true)
    ensures Lookup(StreamPayload(payload), field) == Lookup(payload, field)
  {
    SetPropertySpec(payload, "stream", Bool(true), field);
  }

  /** The request `streamChatCompletion` opens: a POST of the payload's JSON. */
  lemma ChatConfig(payload: seq<(string, Value)>, stringify: Value -> string)
    ensures SseConfig(ChatCompletionsPath, ChatInit(payload), stringify).body == Str(stringify(Obj(StreamPayload(payload))))
    ensures SseConfig(ChatCompletionsPath, ChatInit(payload), stringify).httpMethod == Some(POST)
  {
  }

  // ---------------------------------------------------------- dispatch

  /** Which callbacks the caller supplied. */
  datatype Callbacks = Callbacks(onText: bool, onRole: bool, onError: bool, onFinished: bool)

  /** One callback invocation, with its argument. */
  datatype Fired = RoleFired(role: Value) | TextFired(text: Value) | FinishedFired(reason: Value) | ErrorFired(error: Failure)

  /** `v[0]` on a parsed JSON value. */
  function Index0(v: Value): Value
  {
    match v
    case Arr(items) => if items == [] then Undefined else items[0]
    case Str(s) => if s == [] then Undefined else Str([s[0]])
    case Obj(entries) => Lookup(entries, "0")
    case _ => Undefined
  }

  /** `chunk.choices?.[0]`; on a null chunk the property access throws,
      which the handler swallows just as it ignores a missing choice. */
  function FirstChoice(chunk: Value): Value
  {
    var choices := Get(chunk, "choices");
    if IsNullish(choices) then Undefined else Index0(choices)
  }

  function RoleOf(choice: Value): Value { Get(Get(choice, "delta"), "role") }
  function ContentOf(choice: Value): Value { Get(Get(choice, "delta"), "content") }
  function ReasonOf(choice: Value): Value { Get(choice, "finish_reason") }

  /** The `onEvent` handler for one payload, `parsed` being `JSON.parse(raw)`
      or `None` when it throws: the callbacks it fires, in order. */
  function Dispatch(parsed: Option<Value>, cb: Callbacks): seq<Fired>
  {
    if parsed.None? then []
    else
      var choice := FirstChoice(parsed.value);
      if !Truthy(choice) then []
      else
        (if Truthy(RoleOf(choice)) && cb.onRole then [RoleFired(RoleOf(choice))] else []) +
        (if Truthy(ContentOf(choice)) && cb.onText then [TextFired(ContentOf(choice))] else []) +
        (if Truthy(ReasonOf(choice)) && cb.onFinished then [FinishedFired(ReasonOf(choice))] else [])
  }

  /** The position of a callback in the handler. */
  function Rank(f: Fired): nat
  {
    match f
    case RoleFired(_) => 0
    case TextFired(_) => 1
    case FinishedFired(_) => 2
    case ErrorFired(_) => 3
  }

  /** A payload that fails to parse, or a chunk without a first choice,
      fires nothing; otherwise each callback fires exactly when it is given
      and its field is truthy, with that field as argument; `onError`
      never fires here. */
  lemma DispatchSpec(parsed: Option<Value>, cb: Callbacks)
    ensures parsed.None? ==> Dispatch(parsed, cb) == []
    ensures parsed.Some? && !Truthy(FirstChoice(parsed.value)) ==> Dispatch(parsed, cb) == []
    ensures parsed.Some? && Truthy(FirstChoice(parsed.value)) ==>
      var c, r := FirstChoice(parsed.value), Dispatch(parsed, cb);
      && (RoleFired(RoleOf(c)) in r <==> cb.onRole && Truthy(RoleOf(c)))
      && (TextFired(ContentOf(c)) in r <==> cb.onText && Truthy(ContentOf(c)))
      && (FinishedFired(ReasonOf(c)) in r <==> cb.onFinished && Truthy(ReasonOf(c)))
      && (forall f :: f in r ==> f == RoleFired(RoleOf(c)) || f == TextFired(ContentOf(c)) || f == FinishedFired(ReasonOf(c)))
  {
  }

  /** The callbacks fire at most once each, in the order role, text, finish. */
  lemma DispatchOrder(parsed: Option<Value>, cb: Callbacks)
    ensures forall i, j :: 0 <= i < j < |Dispatch(parsed, cb)| ==> Rank(Dispatch(parsed, cb)[i]) < Rank(Dispatch(parsed, cb)[j])
  {
  }

  /** `onText` fires for a non-empty string and not for the empty one. */
  lemma TextFiresForNonEmptyString(parsed: Option<Value>, cb: Callbacks, s: string)
    requires parsed.Some? && Truthy(FirstChoice(parsed.value)) && cb.onText
    requires ContentOf(FirstChoice(parsed.value)) == Str(s)
    ensures TextFired(Str(s)) in Dispatch(parsed, cb) <==> s != []
    ensures s == [] ==> forall f :: f in Dispatch(parsed, cb) ==> !f.TextFired?
  {
    DispatchSpec(parsed, cb);
  }

  /** A typical chunk `{"choices":[{"delta":{"content":"Hi"},"finish_reason":null}]}`
      fires `onText("Hi")` only. */
  lemma DispatchExample()
    ensures Dispatch(Some(Obj([("choices", Arr([Obj([("delta", Obj([("content", Str("Hi"))])), ("finish_reason", Null)])]))])),
                     Callbacks(true, true, true, true)) == [TextFired(Str("Hi"))]
  {
    var choice := Obj([("delta", Obj([("content", Str("Hi"))])), ("finish_reason", Null)]);
    var chunk := Obj([("choices", Arr([choice]))]);
    assert Get(chunk, "choices") == Arr([choice]);
    assert FirstChoice(chunk) == choice;
    assert Get(choice, "delta") == Obj([("content", Str("Hi"))]);
    assert RoleOf(choice) == Undefined;
    assert ContentOf(choice) == Str("Hi");
    assert ReasonOf(choice) == Null;
  }

  // ------------------------------------------------------ opening fails

  /** The close function `streamChatCompletion` resolves with. */
  datatype Closer = StreamCloser | NoOpCloser

  /** `streamChatCompletion` up to the start of the stream: it never
      rejects; when `sse` rejects, `onError` gets the error and a no-op
      close function is returned. */
  function StartChat(st: ClientState, payload: seq<(string, Value)>, cb: Callbacks, p: Platform): (Closer, seq<Fired>)
  {
    match SseOpen(st, ChatCompletionsPath, ChatInit(payload), p)
    case Ok(_) => (StreamCloser, [])
    case Err(e) => (NoOpCloser, if cb.onError then [ErrorFired(e)] else [])
  }

  lemma StartChatSpec(st: ClientState, payload: seq<(string, Value)>, cb: Callbacks, p: Platform)
    ensures var (closer, fired) := StartChat(st, payload, cb, p);
      && (closer == NoOpCloser <==> SseOpen(st, ChatCompletionsPath, ChatInit(payload), p).Err?)
      && (SseOpen(st, ChatCompletionsPath, ChatInit(payload), p).Err? && cb.onError ==>
            fired == [ErrorFired(SseOpen(st, ChatCompletionsPath, ChatInit(payload), p).error)])
      && (SseOpen(st, ChatCompletionsPath, ChatInit(payload), p).Ok? || !cb.onError ==> fired == [])
  {
  }

  // ----------------------------------------------------------- history

  /** JavaScript `xs.slice(start)`: a negative start counts from the end. */
  function SliceFrom<T>(xs: seq<T>, start: int): seq<T>
  {
    var k := if start < 0 then (if |xs| + start < 0 then 0 else |xs| + start)
             else if start > |xs| then |xs| else start;
    xs[k..]
  }

  /** `buildHistory(messages, max)` as written: always a suffix of the
      history; a limit of 0 keeps all of it, a negative limit drops that many
      of the oldest messages. */
  function BuildHistoryAsWritten(messages: seq<Message>, max: int): (r: seq<Message>)
    ensures |r| <= |messages| && r == messages[|messages| - |r|..]
    ensures |messages| <= max ==> r == messages
    ensures 0 < max < |messages| ==> |r| == max
    ensures max == 0 ==> r == messages
    ensures max < 0 ==> |r| == if |messages| + max < 0 then 0 else |messages| + max
  {
    if |messages| <= max then messages else SliceFrom(messages, -max)
  }

  /** The truncation the helper is meant to do: the last `max` messages. */
  function BuildHistory(messages: seq<Message>, max: nat): (r: seq<Message>)
    ensures |r| == if |messages| <= max then |messages| else max
    ensures r == messages[|messages| - |r|..]
  {
    if |messages| <= max then messages else messages[|messages| - max..]
  }

  /** A short history is returned unchanged; a long one loses its oldest
      messages and keeps `max`, in their order. */
  lemma BuildHistorySpec(messages: seq<Message>, max: nat)
    ensures |messages| <= max ==> BuildHistory(messages, max) == messages
    ensures |messages| > max ==> BuildHistory(messages, max) == messages[|messages| - max..]
    ensures forall i :: 0 <= i < |BuildHistory(messages, max)| ==>
      BuildHistory(messages, max)[i] == messages[|messages| - |BuildHistory(messages, max)| + i]
  {
  }

  /** For every limit of at least one the code does that. */
  lemma AsWrittenAgreesForPositiveLimit(messages: seq<Message>, max: int)
    requires max >= 1
    ensures BuildHistoryAsWritten(messages, max) == BuildHistory(messages, max)
  {
  }

  /** With limit 0, `slice(-0)` is `slice(0)`: the whole history comes back. */
  lemma AsWrittenKeepsAllForZeroLimit(m: Message)
    ensures BuildHistoryAsWritten([m], 0) == [m]
    ensures BuildHistory([m], 0) == []
  {
  }

  /** The default limit keeps the 50 most recent messages. */
  lemma DefaultLimitKeepsFifty(messages: seq<Message>)
    requires |messages| > DefaultHistoryLimit
    ensures |BuildHistoryAsWritten(messages, DefaultHistoryLimit)| == 50
    ensures BuildHistoryAsWritten(messages, DefaultHistoryLimit) == messages[|messages| - 50..]
  {
  }
}

# A verified model of the fetch-based HTTP client and its chat helpers

This project models the network layer of a small browser chat front end:

- `src/network/http.ts`, the `HttpClient`. It contains:
  - three interceptor chains: request, response and error;
  - a default request interceptor that adds the default headers, the stored bearer token, the base URL and the 30-second timeout;
  - URL and query building;
  - request-body encoding;
  - the status and content-type handling of `request`;
  - the `get`/`post`/`put`/`patch`/`delete` shorthands;
  - the Server-Sent-Events decoder behind `sse`.
- `src/network/openai.ts`, the chat-completion helpers:
  - the `stream: true` override of the request body;
  - the callbacks that one streamed chunk fires;
  - the fallback when the stream fails to open;
  - the history truncation `buildHistory`.

Modules, one file each:

| file | module | what it holds |
|---|---|---|
| `wrappers.dfy` | `Wrappers` | `Option` and `Result` |
| `text.dfy` | `Text` | the string primitives the decoder relies on, with their laws: `trim`, `startsWith`, `includes`, `indexOf('\n\n')`, the single-pass `/\r\n/g` replace, `split('\n')`, decimal printing |
| `jsvalue.dfy` | `JsValue` | JavaScript values: nullishness, truthiness, `??`, property access, object spread with one overridden key, `String(v)` |
| `url.dfy` | `Url` | `buildURL`: the base-path-preserving path join and the query serialisation |
| `body.dfy` | `Body` | `isBodyInit`, `toBodyInit` and the JSON rule of `request` |
| `client.dfy` | `Client` | the default interceptors, the chains, the outcome of `request`, the shorthands, the opening of `sse`, and the `HttpClient` class with its fields and methods |
| `sse.dfy` | `Sse` | the event-stream decoder: the framing on blank lines, the `data:` line rule, the `[DONE]` sentinel, CRLF handling, and the `SseReader` class whose `Feed` and `ReadLoop` methods are the read loop of `sse` |
| `openai.dfy` | `OpenAI` | the chat helpers listed above |

Abstractions:
- The client's fields (base URL, token slot, the three interceptor lists) are the fields of the class `Client.HttpClient`. Its methods update them in place.
- The token slot stands for the `localStorage` entry.
- Everything the code does not compute itself is a parameter (`Client.Platform`, `Url.UrlEnv`):
  - `JSON.stringify` and `JSON.parse`;
  - URL parsing;
  - `window.location.origin`;
  - `fetch`;
  - reading a response body.
- An interceptor is either one of the three built-in defaults or a user hook, given as a function. A hook's throw is an `Err`, or a `Threw` result for the error chain.
- The read loop of `sse` consumes a sequence of inputs: `Chunk(text)`, end of stream, a failed read, or the close function being called. It returns:
  - the payloads handed to `onEvent`;
  - how the loop ended: completed, aborted or failed.

How the model departs from the comments in the code. The model follows the code in each case.
- The comment at `src/network/http.ts:366` says that receiving `[DONE]` completes the stream.
  - The code aborts the controller, but it still decodes the rest of the current buffer.
  - Events that follow `[DONE]` in the same chunk are still forwarded (`Sse.EventsAfterDoneInSameChunk`).
  - `onDone` does not run after `[DONE]` when the body is still open: the next read rejects with an abort, and the loop ends silently. A body that had already closed when the abort ran ends with `done` and `onDone`; that timing is not modelled.
- The comment at `src/network/http.ts:443` promises CRLF compatibility.
  - A `\r` at the end of a read stays in the buffer (`Sse.BlocksCr`). The replace runs again over the whole buffer on the next read, so a `\r\n` pair split between two chunks is still replaced (`Text.ReplaceCrlfAfterWaitingCr`).
  - One pass of `/\r\n/g` turns `"\r\r\n"` into `"\r\n"`, so a CRLF can survive (`Sse.FeedStepCanKeepCrlf`).

  CRLF tolerance is proved for every text in which each `\r` opens a `\r\n` pair, cut into chunks anywhere, also between the `\r` and the `\n` of a pair (`Sse.CrlfToleranceAnySplit`). The stream decodes as the same text written with `\n` and cut at the same places. `Sse.CrlfTolerance` is the special case of an LF stream re-sent chunk by chunk with every `\n` written as `\r\n`.
- In `sse`, a throw of a request interceptor or of `fetch` rejects directly. The error interceptors do not see it (`Client.SseInterceptorFailureBypassesErrorChain`).
  - In `request`, the same throws reach the error chain, together with the caller's original config (`Client.FetchFailureUsesCallerConfig`).
  - In `request`, a non-2xx response reaches the error chain exactly once, with the final config (`Client.NonOkGoesToErrorChain`).

## Model

| member | source | states |
|---|---|---|
| Text.TrimStartSpec | src/network/http.ts:448 | `trim` drops exactly the leading whitespace: the result is a suffix, starts with a non-space, and everything cut is whitespace |
| Text.TrimEndSpec | src/network/http.ts:448 | the same for trailing whitespace: a prefix ending with a non-space, everything cut is whitespace |
| Text.TrimIsInfix | src/network/http.ts:452 | the trimmed line is an infix of the line, and begins and ends with non-whitespace |
| Text.TrimRemovesWhitespace | src/network/http.ts:452 | every character outside the kept infix is whitespace |
| Text.TrimOfTrimmed | src/network/http.ts:452 | a string without surrounding whitespace is its own trim |
| Text.TrimIdempotent | src/network/http.ts:448-452 | trimming twice equals trimming once |
| Text.TrimKeepsOut | src/network/http.ts:448 | trimming introduces no character, so a block cut before a blank line stays free of it |
| Text.IndexOfPair | src/network/http.ts:447 | a found position of `\n\n` leaves room for both characters |
| Text.IndexOfPairSpec | src/network/http.ts:447 | `indexOf('\n\n')` finds the first occurrence, and finds none exactly when the buffer holds no blank line |
| Text.IndexOfPairIs | src/network/http.ts:447 | a pair at `k` with none before means `indexOf` returns `k` |
| Text.NoPairInSuffix | src/network/http.ts:447-449 | what remains after a cut inherits the absence of blank lines |
| Text.ReplaceLf | src/network/http.ts:444 | turning every `\n` into `\r\n` leaves each `\r` followed by `\n` |
| Text.ReplaceCrlfNoCr | src/network/http.ts:444 | the CRLF replace leaves text without `\r` unchanged |
| Text.ReplaceCrlfUndoesReplaceLf | src/network/http.ts:444 | the CRLF replace undoes writing every newline as `\r\n` |
| Text.ReplaceCrlfAppend | src/network/http.ts:444 | the replace distributes over concatenation when the left part does not end in `\r` |
| Text.ReplaceCrlfHead | src/network/http.ts:444 | the first character of the replaced text is `\n` for a leading `\r\n`, otherwise the original first character |
| Text.ReplaceCrlfLeavesNoCrlf | src/network/http.ts:444 | without `\r\r` in the input, no `\r\n` survives the replace |
| Text.ReplaceCrlfKeepsCrCrLf | src/network/http.ts:444 | the single pass turns `"\r\r\n"` into `"\r\n"`, so a CRLF can survive |
| Text.ReplaceCrlfRemovesCr | src/network/http.ts:444 | when every `\r` opens a `\r\n` pair, the replace leaves no `\r` |
| Text.ReplaceCrlfDropCr | src/network/http.ts:444 | a `\r` at the end, left waiting for the `\n` of the next read, survives the replace as the last character, and no other `\r` does |
| Text.ReplaceCrlfAfterWaitingCr | src/network/http.ts:442-444 | a `\r` kept in the buffer and the `\n` that opens the next chunk are replaced as one pair; only a `\r` at the end of that chunk is left waiting |
| Text.ReplaceCrlfJoin | src/network/http.ts:442-444 | the replace of a text that ends with a waiting `\r` or none, followed by more text, is the replace of the part before that `\r`, then the replace of the `\r` and the rest |
| Text.Split | src/network/http.ts:451 | `split('\n')` yields at least one piece, no piece holds a newline, and joining the pieces gives the block back |
| Text.SplitWithoutSeparator | src/network/http.ts:451 | a block without newline splits into itself |
| Text.SplitAtSeparator | src/network/http.ts:451 | splitting at the first newline peels off the first line |
| Text.SplitUndoesJoin | src/network/http.ts:451 | splitting undoes joining newline-free lines |
| Text.DigitChar | src/network/http.ts:306 | a digit prints as the character of its value |
| Text.NatToString | src/network/http.ts:306 | a status prints as a non-empty string of digits |
| Text.ParseNatToString | src/network/http.ts:306 | the printed status reads back as the same number |
| JsValue.IsPlainObjectByTag | src/network/http.ts:67-69 | the model's `IsPlainObject` agrees with its model of `Object.prototype.toString`: plain objects are exactly the values tagged `[object Object]`; both are definitions, so this documents the correspondence rather than proving a property of the code |
| JsValue.Lookup | src/network/http.ts:301-302 | a property lookup gives `undefined` when no entry has the key, and a defined result is the value of an entry with that key |
| JsValue.LookupFindsFirst | src/network/http.ts:301-302 | the lookup gives the value of the first entry with the key |
| JsValue.JsStringNumber | src/network/http.ts:93-97 | `String(n)` of an integer is its decimal numeral, with `-` when negative, and the numeral reads back as the number |
| JsValue.JsStringArray | src/network/http.ts:139 | `String(a)` of a non-empty array splits at its commas into the texts of its elements, `null` and `undefined` giving empty pieces, when no element text holds a comma |
| JsValue.SetPropertySpec | src/network/openai.ts:65 | `{ ...o, key: v }` has `v` at `key`, every other key as in `o`, and no key that `o` and `key` lack |
| Url.HasHttpSchemeSpec | src/network/http.ts:78 | `/^https?:/i` holds exactly when the text, with ASCII letters in lower case, starts with `http:` or `https:` |
| Url.BaseLocationCases | src/network/http.ts:77-82 | an `http(s):` base is parsed as it is; any other non-empty base is first resolved against the origin; an empty base is the origin |
| Url.StripTrailingSlash | src/network/http.ts:85 | removing one trailing `/` removes exactly one character if there is one, and nothing otherwise |
| Url.RequestPath | src/network/http.ts:85-87 | the request path starts with the base path (one trailing slash removed), then a `/`, and ends with the url; its length is the sum |
| Url.RequestPathExamples | src/network/http.ts:84-87 | `/api` plus `/v1/chat/completions` is `/api/v1/chat/completions`: the prefix is kept |
| Url.RequestPathSlashExample | src/network/http.ts:85-86 | `/api/` plus `v1/models` is `/api/v1/models`: one slash between them |
| Url.RequestPathRootExample | src/network/http.ts:85-86 | `/` plus `x` is `/x` |
| Url.ParamEntriesSpec | src/network/http.ts:90-99 | a nullish param adds nothing; an array adds one `String(item)` entry per element, in order; a plain object its JSON text; anything else `String(v)` |
| Url.BuildUrl | src/network/http.ts:71-102 | the loop over the params builds the URL that `UrlFor` describes: origin, joined path, and the query in parameter order |
| Url.AppendParam | src/network/http.ts:90-99 | one parameter appends exactly its entries, after what the query already holds |
| Url.AppendElements | src/network/http.ts:93 | an array parameter appends one `String(item)` entry per element, in order |
| Url.QueryOfSnoc | src/network/http.ts:89-100 | one more param appends its entries at the end of the query |
| Url.QueryOfAppend | src/network/http.ts:89-100 | the query of concatenated params is the concatenation of their queries, so input order is kept |
| Url.QueryOfSingle | src/network/http.ts:90-99 | the query of one param is its entries |
| Url.QueryOfLength | src/network/http.ts:89-100 | the query has one entry per non-nullish scalar and per array element |
| Url.QueryOfKeys | src/network/http.ts:89-100 | every query key is the key of a non-nullish param |
| Url.QueryExample | src/network/http.ts:89-99 | `{a:1, b:[2,3], c:null}` serialises to `a=1&b=2&b=3`, with no `c` |
| Body.ToBodyInit | src/network/http.ts:132-141 | a nullish body is dropped; the result is always a valid fetch body; a string passes as is, and so does a native body when not JSON-encoding |
| Body.JsonBodyRoundTrip | src/network/http.ts:136-138 | when JSON-encoding a value other than a string, the body sent is the text `JSON.stringify` gives; a receiver whose parse inverts `stringify` on that value (a requires) gets the value back |
| Body.BodyInitPassesThrough | src/network/http.ts:112-139 | without JSON, a value that is not `null` or `undefined` reaches `fetch` unchanged exactly when `isBodyInit` holds for it |
| Body.PlainBodyIsStringified | src/network/http.ts:140 | without JSON, a value that is no fetch body is sent as `String(v)` |
| Body.ToBodyInitIsFixpoint | src/network/http.ts:132-141 | encoding an already encoded body changes nothing |
| Body.BinaryAndTextBodiesPassThrough | src/network/http.ts:271-280 | FormData, Blob, ArrayBuffer and strings reach `fetch` unchanged, whatever `json` says |
| Body.OtherBodiesAreJsonEncoded | src/network/http.ts:271-280 | any other body is JSON text unless `json: false`, in which case it passes, or becomes `String(v)` if no fetch body |
| Body.PlainObjectWithoutJson | src/network/http.ts:140 | with `json: false`, a plain object is sent as `"[object Object]"` |
| Client.TokenRoundTrip | src/network/http.ts:201-211 | `getToken` after `setToken(t)` gives `t`, or `''` for a falsy token; an empty token is never stored |
| Client.DefaultHeadersSpec | src/network/http.ts:158-177 | a caller header is kept as given and overrides the baseline, even when empty (only an empty `Content-Type` or `Authorization` can be filled in); missing `Accept`/`X-Requested-With` get the baseline; `Content-Type` becomes JSON when the JSON rule holds and none is given, and is left as given otherwise; `Authorization: Bearer <token>` is added for a non-empty token when none is given, and never overrides the caller's; no other header appears |
| Client.DefaultRequestSpec | src/network/http.ts:180-185 | an explicit `baseURL`/`timeoutMs` is kept, otherwise the client's base URL and 30000; url, method, params, body and json are unchanged |
| Client.DefaultRequestIdempotent | src/network/http.ts:157-186 | running the default interceptor twice is the same as once |
| Client.AbortAfter | src/network/http.ts:104-110 | a timer is armed exactly for a positive timeout, with that timeout |
| Client.DefaultTimeoutArmsTimer | src/network/http.ts:183 | a request without a timeout gets the 30000 ms timer |
| Client.RequestChainAppend | src/network/http.ts:225-231 | the request chain over `a + b` runs `a`, then `b` on its output; a throw stops it |
| Client.ResponseChainAppend | src/network/http.ts:233-241 | the same for the response chain |
| Client.DefaultResponseChainIsIdentity | src/network/http.ts:189 | with only the default response interceptor, the response comes back unchanged |
| Client.ErrorChainAppend | src/network/http.ts:243-257 | the error chain over `a + b` runs `b` on the error `a` ends with |
| Client.ErrorChainLastThrowWins | src/network/http.ts:248-256 | when the last interceptor throws, its error is what the chain throws |
| Client.ErrorChainKeepsError | src/network/http.ts:248-256 | interceptors that only return leave the original error to be thrown |
| Client.ClassifySpec | src/network/http.ts:286-295 | a body is read as JSON exactly when the content type contains `application/json`, as text exactly when it instead contains `text/`, and as bytes otherwise |
| Client.ClassifyExamples | src/network/http.ts:286-295 | `application/json; charset=utf-8` is JSON, `text/plain` text, and a missing content type binary |
| Client.ErrorMessageSpec | src/network/http.ts:299-305 | the error text is `message`, else `error`, else the status text for a plain-object body, and the status text for any other body |
| Client.NonOkGoesToErrorChain | src/network/http.ts:297-311 | a non-2xx response rejects with the error chain's verdict on an error carrying the status, the decoded body and the final config; the response interceptors play no part |
| Client.NotFoundMessage | src/network/http.ts:306-310 | a 404 with `{"error":"not found"}` gives the message `HTTP 404 not found` and status 404 |
| Client.ResolvedMeans2xx | src/network/http.ts:297-320 | with the default response chain, a resolved request had a 2xx status |
| Client.FetchFailureUsesCallerConfig | src/network/http.ts:321-323 | a throw from `fetch` reaches the error chain with the caller's own config |
| Client.Shorthand | src/network/http.ts:326-331 | `get`/`delete` send the caller's options with the url and the verb set, everything else as given |
| Client.ShorthandWithBody | src/network/http.ts:333-339 | `post`/`put`/`patch` do the same, with the body always the argument |
| Client.SseBody | src/network/http.ts:387-393 | `sse` drops a falsy body, keeps a string or any body under `json: false`, and JSON-encodes the rest |
| Client.SseInterceptorFailureBypassesErrorChain | src/network/http.ts:377-396 | a request-interceptor throw in `sse` rejects directly, without the error chain |
| Client.SseOpenSpec | src/network/http.ts:398-431 | an opened stream is a 2xx response with a body, fetched under the close signal with the body left as is |
| Client.SseHeaders | src/network/http.ts:381-385 | a stream without caller headers asks for `text/event-stream` and declares a JSON body |
| Client.EndOfLoop | src/network/http.ts:463-475 | `onDone` runs only at the natural end of the body; only a failed read reaches the error chain; an abort is silent |
| Client.InitialBaseURL | src/network/http.ts:153-154 | the base URL is the argument, else the environment's, else `/api`, never empty |
| Client.HttpClient.constructor | src/network/http.ts:152-195 | a new client holds its base URL, the stored token, and exactly one default interceptor per chain |
| Client.HttpClient.SetBaseURL | src/network/http.ts:197-199 | only the base URL changes |
| Client.HttpClient.SetToken | src/network/http.ts:201-207 | only the token slot changes, and `getToken` then returns the token, or `''` when it was falsy |
| Client.HttpClient.UseRequestInterceptor | src/network/http.ts:213-215 | the interceptor is appended to the request chain; nothing else changes |
| Client.HttpClient.UseResponseInterceptor | src/network/http.ts:217-219 | the interceptor is appended to the response chain; nothing else changes |
| Client.HttpClient.UseErrorInterceptor | src/network/http.ts:221-223 | the interceptor is appended to the error chain; nothing else changes |
| Client.HttpClient.RunRequestInterceptors | src/network/http.ts:225-231 | the loop's result is the request-chain fold in registration order |
| Client.HttpClient.RunResponseInterceptors | src/network/http.ts:233-241 | the loop's result is the response-chain fold in registration order |
| Client.HttpClient.RunErrorInterceptors | src/network/http.ts:243-257 | the loop throws what the error-chain fold gives: each thrown value replaces the error |
| Client.HttpClient.Request | src/network/http.ts:259-324 | `request` resolves or rejects as `RequestOutcome` says, whose properties are the lemmas above |
| Client.HttpClient.Get | src/network/http.ts:326-331 | `get` is `request` on the GET shorthand config |
| Client.HttpClient.Post | src/network/http.ts:333-339 | `post` is `request` on the POST config with the given body |
| Client.HttpClient.Put | src/network/http.ts:341-347 | `put` is `request` on the PUT config with the given body |
| Client.HttpClient.Patch | src/network/http.ts:349-355 | `patch` is `request` on the PATCH config with the given body |
| Client.HttpClient.Delete | src/network/http.ts:357-362 | `delete` is `request` on the DELETE shorthand config |
| Client.HttpClient.OpenStream | src/network/http.ts:369-479 | `sse` opens as `SseOpen` says; a failed open forwards nothing; an opened stream forwards what `Stream` decodes and ends as `EndOfLoop` says |
| Sse.LinePayloadSpec | src/network/http.ts:454 | the payload is the line after `data:` and at most one whitespace character, and is a suffix of the line |
| Sse.LineItemSpec | src/network/http.ts:452-459 | a line counts exactly when its trimmed form starts with `data:`; it is the sentinel exactly when its payload is `[DONE]`; any other payload is forwarded as is |
| Sse.BlocksSpec | src/network/http.ts:447-449 | the cut blocks, each followed by `\n\n`, plus the remainder rebuild the buffer; no block holds a blank line; the remainder holds none |
| Sse.BlocksRebuild | src/network/http.ts:447-449 | the cut loses and adds no text |
| Sse.BlocksAreComplete | src/network/http.ts:447-448 | every cut block is free of blank lines |
| Sse.BlocksRemainder | src/network/http.ts:447 | the inner loop stops only when no blank line is left |
| Sse.BlocksStep | src/network/http.ts:447-449 | one turn of the inner loop cuts the text before the first blank line |
| Sse.CutAfterBlock | src/network/http.ts:447-449 | a complete block followed by a blank line is cut off first |
| Sse.BlocksOfFramed | src/network/http.ts:447-449 | framing complete blocks and cutting again gives the same blocks, then the cut of the rest |
| Sse.BlocksUndoFramed | src/network/http.ts:447-449 | cutting undoes framing: blocks and remainder come back |
| Sse.FramedAppend | src/network/http.ts:447-449 | framing distributes over concatenation of block lists |
| Sse.EventsOfAppend | src/network/http.ts:447-461 | the events of two block runs are the events of each, in order |
| Sse.DoneInAppend | src/network/http.ts:455-457 | the sentinel is in two block runs exactly when it is in one of them |
| Sse.FeedStepWithoutCr | src/network/http.ts:442-449 | without `\r` one read is just the cut of buffer plus chunk |
| Sse.FeedStepTwice | src/network/http.ts:440-449 | without `\r`, two reads give the blocks and remainder of one read of both chunks: the split of the text into chunks does not matter |
| Sse.FeedStepLeavesNoCrlf | src/network/http.ts:444-449 | without `\r\r` the buffer kept after a read holds no blank line and no `\r\n` |
| Sse.FeedStepCanKeepCrlf | src/network/http.ts:444 | the chunk `"\r\r\n"` leaves a `\r\n` in the buffer |
| Sse.AbortedStreamIsSilent | src/network/http.ts:470-474 | once aborted, the loop forwards nothing and ends aborted |
| Sse.LinesNeverForwardDone | src/network/http.ts:451-460 | the sentinel is never forwarded from a block's lines |
| Sse.EventsNeverForwardDone | src/network/http.ts:447-461 | the sentinel is never forwarded from any block |
| Sse.StreamNeverForwardsDone | src/network/http.ts:437-476 | the sentinel never reaches `onEvent` over the whole stream |
| Sse.CrlfChunkSameStep | src/network/http.ts:444 | a chunk written with `\r\n` reads as the same chunk written with `\n` |
| Sse.CrlfTolerance | src/network/http.ts:444 | an LF stream without `\r`, re-sent chunk by chunk with every `\n` written as `\r\n` (no chunk boundary splits a pair), decodes to the same payloads and ends the same way |
| Sse.BlocksCr | src/network/http.ts:447-449 | a `\r` at the end of the buffer completes no event: the blocks are the same and the `\r` stays in the remainder |
| Sse.CrlfChunkSplit | src/network/http.ts:440-444 | in a CRLF text, a chunk read after a waiting `\r` opens with its `\n`; its other `\r`s all open pairs inside it; the rest of the text is again a CRLF text after the `\r` now waiting |
| Sse.CrlfChunkReplace | src/network/http.ts:442-444 | replacing CRLF in a chunk read after a waiting `\r` gives the LF chunk, then the `\r` now waiting |
| Sse.CrlfSplitStep | src/network/http.ts:442-449 | one read of a CRLF chunk, after a waiting `\r`, cuts the same events as the LF chunk, and the buffers kept differ by the `\r` now waiting |
| Sse.CrlfTextStep | src/network/http.ts:442-444 | replacing CRLF in a CRLF text goes chunk by chunk: the LF chunk, then the replace of the rest after the `\r` now waiting |
| Sse.LfInputsText | src/network/http.ts:442-444 | the LF chunks together are the CRLF text with every `\r\n` replaced by `\n` |
| Sse.LfInputsHaveNoCr | src/network/http.ts:444 | no LF chunk holds a `\r` |
| Sse.CrlfSplitTolerance | src/network/http.ts:437-476 | from any buffer without `\r`, the read loop over the chunks of a CRLF text, with or without a `\r` waiting, forwards and ends as over the LF chunks |
| Sse.CrlfToleranceAnySplit | src/network/http.ts:437-476 | a text in which every `\r` opens a `\r\n` pair, cut into chunks anywhere (also inside a pair), forwards the same payloads and ends the same way as that text with `\n`, cut at the same places; those LF chunks hold no `\r` and together are the `\r\n`-replaced text |
| Sse.StreamBufferHasNoBlankLine | src/network/http.ts:447-449 | the buffer the read loop leaves holds no blank line |
| Sse.OneLineBlock | src/network/http.ts:451-460 | a one-line block decodes as that line |
| Sse.StreamChunkStep | src/network/http.ts:439-461 | one chunk forwards the events of the blocks it completes, then the loop goes on with the rest of the buffer, aborted if the sentinel occurred |
| Sse.DataLine | src/network/http.ts:452-454 | `data: p` decodes to the payload `p` |
| Sse.EventOfEncoded | src/network/http.ts:451-459 | the block `data: p` forwards exactly `p` and is no sentinel |
| Sse.EventsOfEncoded | src/network/http.ts:447-460 | a text of `data:` events cuts into one block per event, with nothing left over, and forwards the payloads in order |
| Sse.EncodedStreamRoundTrip | src/network/http.ts:437-469 | a stream that sends encoded payloads and ends forwards exactly those payloads and completes |
| Sse.DoneAbortsAfterChunk | src/network/http.ts:440-457 | a chunk that completes a sentinel forwards the events of its blocks and then ends the stream aborted, whatever comes later |
| Sse.EventsAfterDoneInSameChunk | src/network/http.ts:447-461 | events after `data: [DONE]` in the same chunk are still forwarded, then the stream ends aborted |
| Sse.DoneEndsStream | src/network/http.ts:455-457 | a stream whose only event is the sentinel forwards nothing, never completes and reaches no error chain |
| Sse.DecodeBlock | src/network/http.ts:451-460 | the per-line loop forwards the block's events, and reports whether it met the sentinel |
| Sse.SseReader.constructor | src/network/http.ts:434 | the buffer starts empty and the stream not aborted |
| Sse.SseReader.Feed | src/network/http.ts:442-461 | one read appends the chunk, normalises CRLF, forwards the events of every complete block, keeps the rest of the buffer, and aborts on the sentinel; the kept buffer holds no blank line |
| Sse.SseReader.Close | src/network/http.ts:478 | closing aborts and leaves the buffer, so a second close has the same effect as one |
| Sse.SseReader.ReadLoop | src/network/http.ts:437-476 | the read loop forwards and ends as the `Stream` function says, keeps the buffer `StreamBuffer` gives, and leaves the reader aborted exactly when it ends aborted |
| OpenAI.ChatConfig | src/network/openai.ts:62-65 | the stream is opened by POST with the JSON text of the payload |
| OpenAI.StreamIsForced | src/network/openai.ts:65 | the streamed payload has `stream` set to `true`, whatever the caller passed, and every other field as given |
| OpenAI.DispatchSpec | src/network/openai.ts:66-81 | a payload that fails to parse, or a chunk without a first choice, fires nothing; otherwise each of role, text and finish fires exactly when given and truthy, with that field; `onError` never fires |
| OpenAI.DispatchOrder | src/network/openai.ts:73-78 | the callbacks fire at most once each, in the order role, text, finish |
| OpenAI.TextFiresForNonEmptyString | src/network/openai.ts:74 | `onText` fires for a non-empty content string and not for the empty one |
| OpenAI.DispatchExample | src/network/openai.ts:66-78 | a chunk with content `Hi` and a null finish reason fires only `onText("Hi")` |
| OpenAI.StartChatSpec | src/network/openai.ts:84-90 | when opening fails, `onError` (if given) gets the error and a no-op close function is returned, never a rejection |
| OpenAI.BuildHistoryAsWritten | src/network/openai.ts:94-97 | as written: always a suffix of the history; all of it when `n <= max`; the last `max` messages when `0 < max < n`; the whole history for `max = 0`; for a negative `max`, the `-max` oldest messages dropped |
| OpenAI.BuildHistory | src/network/openai.ts:94-97 | the result is the last `min(n, max)` messages |
| OpenAI.BuildHistorySpec | src/network/openai.ts:94-96 | a short history comes back unchanged; a long one keeps exactly the last `max` messages in their order |
| OpenAI.AsWrittenAgreesForPositiveLimit | src/network/openai.ts:94-96 | for every limit of at least 1 the code does that |
| OpenAI.AsWrittenKeepsAllForZeroLimit | src/network/openai.ts:96 | with limit 0 the code returns the whole history |
| OpenAI.DefaultLimitKeepsFifty | src/network/openai.ts:94 | the default limit keeps the 50 most recent messages |

## Left out

- `fetch`, `res.json()`/`res.text()`/`res.arrayBuffer()` and `JSON.stringify`/`JSON.parse` are parameters. A serialisation that throws (a cycle, a BigInt) is not modelled.
- `new URL(...)`: parsing, normalisation and percent-encoding are a parameter. A URL that fails to parse is not modelled.
- Url.UrlFor: the final URL is kept symbolic, as origin, joined path and query entries. `new URL(basePath + urlPath, origin)` is not passed through the parser parameter, so dot segments, a `?` or `#` inside `url`, and a `url` starting with `//` (another host) are not resolved.
- Url.QueryOf: the parameters are taken in the order given, which stands for `Object.entries` order. That this order puts integer-like keys first is not modelled.
- `window.location.origin` is a parameter.
- `TextDecoder` is not modelled: chunks arrive as decoded text. Multi-byte sequences split across reads are out of scope.
- `AbortController` and `setTimeout` are reduced to two things:
  - the "timer armed or not" rule (`Client.AbortAfter`);
  - an `aborted` flag in the reader.
- Timing and concurrency are not modelled:
  - which of timeout and response comes first;
  - a close that races an in-flight read;
  - two streams running side by side.
- The detached `async` loop of `sse` is not modelled asynchronously. `OpenStream` runs it to completion over a given sequence of inputs.
- After an abort, the model lets the next read reject with an abort error, which ends the loop silently. Bytes the browser may still deliver, and a body that had already closed before the abort (its read gives `done`, so `onDone` runs), are not modelled.
- `fetchOptions` is not modelled. The spread of caller fetch options over the init object is out of scope.
- Callbacks throwing is not modelled:
  - `onEvent` throwing inside the read loop;
  - `onDone`, whose throw is swallowed;
  - the chat callbacks throwing.
- `instanceof` checks against browser classes become a body-kind constructor of `JsValue.Value`.
- Numbers are integers: fractions, `NaN` and the number-to-string rules for them are not modelled.
- Headers are a map with case-sensitive keys, as the object literal in the code is.
- `localStorage` is the client's token field. The key shared by all clients in one browser is not modelled.
- `import.meta.env` is a constructor parameter (`Client.InitialBaseURL`). The module-level `http` instance is not modelled.
- `getDefaultModel` is an environment lookup and is not modelled.
- `createChatCompletion` is only a `post` and is not modelled separately (`Client.HttpClient.Post`).
- Client.EndOfLoop: the verdict of the error chain after a failed read is reported as unhandled. That is what happens to the rejected detached promise; `onError` of the chat helpers is not called for it.
- Client.NotFoundMessage: states the message for one concrete body shape (`error` field). The general rule is `Client.ErrorMessageSpec`.
- Sse.CrlfTolerance: holds for payloads without `\r`, and for chunk boundaries that do not split a pair. The general case is `Sse.CrlfToleranceAnySplit`.
- Sse.CrlfToleranceAnySplit: holds for texts in which every `\r` opens a `\r\n` pair. With `\r\r` the single-pass replace keeps a `\r\n` (`Sse.FeedStepCanKeepCrlf`).
- `src/router/index.ts`, `src/main.ts`, `vite.config.ts` and `eslint.config.ts` are wiring and configuration, and are not part of this model.

## Findings

| source | as written | input that shows it | evidently intended | confidence | as-written member | corrected member |
|---|---|---|---|---|---|---|
| src/network/openai.ts:94-97 | `messages.length <= max` is false for a non-empty history and `max = 0`, and `messages.slice(-0)` is `slice(0)`, so the whole history is returned | `buildHistory([m], 0)` returns `[m]` | a history of at most `max` messages, the last ones; empty for `max = 0` | not executed | OpenAI.AsWrittenKeepsAllForZeroLimit | OpenAI.BuildHistory |

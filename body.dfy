/**
 * The request body codec of src/network/http.ts: which values `fetch` takes as
 * they are (`isBodyInit`), the JSON rule that decides whether a body is
 * serialised, and the conversion `toBodyInit`. `JSON.stringify` is a parameter.
 */
module Body {
  import opened Wrappers
  import opened JsValue

  /** `isBodyInit`: a string, or a ReadableStream, Blob, FormData,
      URLSearchParams, ArrayBuffer or ArrayBuffer view. */
  predicate IsBodyInit(v: Value) {
    v.Str? || (v.Native? && v.kind != OtherObject)
  }

  /** The three body kinds the JSON rule exempts from serialisation. */
  predicate IsBinaryForm(v: Value) {
    v.Native? && (v.kind == FormDataObject || v.kind == BlobObject || v.kind == ArrayBufferObject)
  }

  /** `json !== false && !(body instanceof FormData) && !(body instanceof Blob)
      && !(body instanceof ArrayBuffer)`, used by the default request
      interceptor for the `Content-Type` header and by `request` for the body. */
  predicate JsonRule(json: Option<bool>, body: Value) {
    json != Some(false) && !IsBinaryForm(body)
  }

  /** `toBodyInit(body, asJson)`, `None` standing for `undefined`. */
  function ToBodyInit(body: Value, asJson: bool, stringify: Value -> string): (r: Option<Value>)
    ensures r.None? <==> IsNullish(body)
    ensures r.Some? ==> IsBodyInit(r.value)
    ensures r.Some? && body.Str? ==> r.value == body
    ensures r.Some? && !asJson && IsBodyInit(body) ==> r.value == body
  {
    if IsNullish(body) then None
    else if asJson then
      (if body.Str? then Some(body) else Some(Str(stringify(body))))
    else if IsBodyInit(body) then Some(body)
    else Some(Str(JsString(body)))
  }

  /** With `asJson`, any value but a string is sent as its JSON text; a
      receiver whose parse inverts `stringify` on it gets the value back. */
  lemma JsonBodyRoundTrip(body: Value, stringify: Value -> string, parse: string -> Value)
    requires !IsNullish(body) && !body.Str?
    requires parse(stringify(body)) == body
    ensures ToBodyInit(body, true, stringify) == Some(Str(stringify(body)))
    ensures parse(ToBodyInit(body, true, stringify).value.s) == body
  {
  }

  /** Without `asJson`, a value that is not a body is sent as `String(body)`. */
  lemma PlainBodyIsStringified(body: Value, stringify: Value -> string)
    requires !IsNullish(body) && !IsBodyInit(body)
    ensures ToBodyInit(body, false, stringify) == Some(Str(JsString(body)))
  {
  }

  /** Without `asJson`, a value goes to `fetch` as it is exactly when
      `isBodyInit` holds for it. */
  lemma BodyInitPassesThrough(body: Value, stringify: Value -> string)
    requires !IsNullish(body)
    ensures ToBodyInit(body, false, stringify) == Some(body) <==> IsBodyInit(body)
  {
  }

  /** What `toBodyInit` produces is already a body: converting it again
      without JSON leaves it alone, and so does converting a string result
      again with JSON. */
  lemma ToBodyInitIsFixpoint(body: Value, asJson: bool, again: bool, stringify: Value -> string)
    requires ToBodyInit(body, asJson, stringify).Some?
    requires again ==> ToBodyInit(body, asJson, stringify).value.Str?
    ensures ToBodyInit(ToBodyInit(body, asJson, stringify).value, again, stringify) == ToBodyInit(body, asJson, stringify)
  {
  }

  /** The body a request sends: `toBodyInit(body, isJson)` under the JSON rule. */
  function RequestBody(json: Option<bool>, body: Value, stringify: Value -> string): (r: Option<Value>)
  {
    ToBodyInit(body, JsonRule(json, body), stringify)
  }

  /** FormData, Blob and ArrayBuffer bodies are passed to `fetch` unchanged
      whatever `json` says, and a string body is never re-encoded. */
  lemma BinaryAndTextBodiesPassThrough(json: Option<bool>, body: Value, stringify: Value -> string)
    requires IsBinaryForm(body) || body.Str?
    ensures RequestBody(json, body, stringify) == Some(body)
  {
  }

  /** Every other value is JSON-encoded unless `json: false` was given;
      this includes URLSearchParams, ReadableStream and typed-array bodies. */
  lemma OtherBodiesAreJsonEncoded(json: Option<bool>, body: Value, stringify: Value -> string)
    requires !IsNullish(body) && !body.Str? && !IsBinaryForm(body)
    ensures json != Some(false) ==> RequestBody(json, body, stringify) == Some(Str(stringify(body)))
    ensures json == Some(false) && IsBodyInit(body) ==> RequestBody(json, body, stringify) == Some(body)
    ensures json == Some(false) && !IsBodyInit(body) ==> RequestBody(json, body, stringify) == Some(Str(JsString(body)))
  {
  }

  /** `json: false` with a plain object sends the text `[object Object]`. */
  lemma PlainObjectWithoutJson(entries: seq<(string, Value)>, stringify: Value -> string)
    ensures RequestBody(Some(false), Obj(entries), stringify) == Some(Str("[object Object]"))
  {
  }
}

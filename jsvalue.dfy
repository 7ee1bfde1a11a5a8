/**
 * The JavaScript values the client handles as request bodies, query parameters
 * and decoded response data, with `String(v)`, property access and `??`.
 */
module JsValue {
  import opened Text

  /** Browser objects, told apart by the `instanceof` tests of the client. */
  datatype NativeKind =
    | ReadableStreamObject
    | BlobObject
    | FormDataObject
    | UrlSearchParamsObject
    | ArrayBufferObject
    | ArrayBufferViewObject  // typed arrays and DataView
    | OtherObject            // any other non-plain object (Date, Map, ...)

  /** A JavaScript value. Numbers are integers; `Obj` is a plain object
      (`Object.prototype.toString` gives `[object Object]`) with its entries in
      `Object.entries` order; `Native` carries the text `String()` gives for it. */
  datatype Value =
    | Undefined
    | Null
    | Bool(b: bool)
    | Num(n: int)
    | Str(s: string)
    | Arr(items: seq<Value>)
    | Obj(entries: seq<(string, Value)>)
    | Native(kind: NativeKind, text: string)

  /** `v === undefined || v === null`, the values `??` replaces. */
  predicate IsNullish(v: Value) {
    v.Undefined? || v.Null?
  }

  /** `isPlainObject` (src/network/http.ts): the `[object Object]` tag. */
  predicate IsPlainObject(v: Value) {
    v.Obj?
  }

  /** `Object.prototype.toString.call(v)`. A typed array stands for the
      views and a `Date` for the other objects; neither is tagged `Object`. */
  function ObjectTag(v: Value): string {
    match v
    case Undefined => "[object Undefined]"
    case Null => "[object Null]"
    case Bool(_) => "[object Boolean]"
    case Num(_) => "[object Number]"
    case Str(_) => "[object String]"
    case Arr(_) => "[object Array]"
    case Obj(_) => "[object Object]"
    case Native(kind, _) =>
      match kind
      case ReadableStreamObject => "[object ReadableStream]"
      case BlobObject => "[object Blob]"
      case FormDataObject => "[object FormData]"
      case UrlSearchParamsObject => "[object URLSearchParams]"
      case ArrayBufferObject => "[object ArrayBuffer]"
      case ArrayBufferViewObject => "[object Uint8Array]"
      case OtherObject => "[object Date]"
  }

  /** The plain objects are exactly the values tagged `[object Object]`. */
  lemma IsPlainObjectByTag(v: Value)
    ensures IsPlainObject(v) <==> ObjectTag(v) == "[object Object]"
  {
    var t := ObjectTag(v);
    if !v.Obj? {
      assert t[8] != 'O' || t[9] != 'b' || |t| != 15;
    }
  }

  /** JavaScript truthiness. */
  predicate Truthy(v: Value) {
    match v
    case Undefined => false
    case Null => false
    case Bool(b) => b
    case Num(n) => n != 0
    case Str(s) => s != []
    case _ => true
  }

  /** `a ?? b`. */
  function Coalesce(a: Value, b: Value): (r: Value)
    ensures !IsNullish(a) ==> r == a
    ensures IsNullish(a) ==> r == b
  {
    if IsNullish(a) then b else a
  }

  /** Own-property lookup `v[key]` on a plain object; `undefined` when absent. */
  function Get(v: Value, key: string): Value
  {
    if v.Obj? then Lookup(v.entries, key) else Undefined
  }

  function Lookup(entries: seq<(string, Value)>, key: string): (r: Value)
    ensures (forall i :: 0 <= i < |entries| ==> entries[i].0 != key) ==> r == Undefined
    ensures r != Undefined ==> exists i :: 0 <= i < |entries| && entries[i] == (key, r)
  {
    if entries == [] then Undefined
    else if entries[0].0 == key then entries[0].1
    else
      var r := Lookup(entries[1..], key);
      assert r != Undefined ==> exists i :: 0 <= i < |entries[1..]| && entries[1..][i] == (key, r);
      r
  }

  /** The lookup reads the first entry with the key. */
  lemma {:induction false} LookupFindsFirst(entries: seq<(string, Value)>, key: string, i: nat)
    requires i < |entries| && entries[i].0 == key
    requires forall j :: 0 <= j < i ==> entries[j].0 != key
    ensures Lookup(entries, key) == entries[i].1
    decreases i
  {
    if i > 0 {
      assert entries[0].0 != key;
      LookupFindsFirst(entries[1..], key, i - 1);
    }
  }

  /** `{...o, [key]: v}`: an existing property keeps its place and takes the
      new value, a new one goes last. */
  function SetProperty(entries: seq<(string, Value)>, key: string, v: Value): seq<(string, Value)>
  {
    if entries == [] then [(key, v)]
    else if entries[0].0 == key then [(key, v)] + entries[1..]
    else [entries[0]] + SetProperty(entries[1..], key, v)
  }

  /** After the assignment the property reads back as `v`, every other
      property reads as before, and no property but `key` is added. */
  lemma {:induction false} SetPropertySpec(entries: seq<(string, Value)>, key: string, v: Value, other: string)
    requires other != key
    ensures Lookup(SetProperty(entries, key, v), key) == v
    ensures Lookup(SetProperty(entries, key, v), other) == Lookup(entries, other)
    ensures forall i :: 0 <= i < |SetProperty(entries, key, v)| ==>
      SetProperty(entries, key, v)[i].0 == key || exists j :: 0 <= j < |entries| && entries[j].0 == SetProperty(entries, key, v)[i].0
    decreases |entries|
  {
    var r := SetProperty(entries, key, v);
    if entries != [] && entries[0].0 != key {
      SetPropertySpec(entries[1..], key, v, other);
      assert r == [entries[0]] + SetProperty(entries[1..], key, v);
      assert r[1..] == SetProperty(entries[1..], key, v);
      forall i | 0 < i < |r| && r[i].0 != key
        ensures exists j :: 0 <= j < |entries| && entries[j].0 == r[i].0
      {
        var j :| 0 <= j < |entries[1..]| && entries[1..][j].0 == r[1..][i - 1].0;
        assert entries[j + 1].0 == r[i].0;
      }
      if 0 < |r| && r[0].0 != key {
        assert entries[0].0 == r[0].0;
      }
    } else if entries != [] {
      forall i | 0 < i < |r| ensures exists j :: 0 <= j < |entries| && entries[j].0 == r[i].0 {
        assert entries[i].0 == r[i].0;
      }
    }
  }

  /** The decimal text of an integer, with a leading minus when negative. */
  function IntToString(n: int): string {
    if n < 0 then "-" + NatToString(-n) else NatToString(n)
  }

  /** `String(v)`. Arrays print their elements joined by commas, with `null`
      and `undefined` elements printed as empty text. */
  function JsString(v: Value): string
    decreases v
  {
    match v
    case Undefined => "undefined"
    case Null => "null"
    case Bool(b) => if b then "true" else "false"
    case Num(n) => IntToString(n)
    case Str(s) => s
    case Arr(items) =>
      Join(seq(|items|, i requires 0 <= i < |items| =>
        if IsNullish(items[i]) then "" else JsString(items[i])), ',')
    case Obj(_) => "[object Object]"
    case Native(_, text) => text
  }

  /** A number prints as its decimal numeral, with a minus when negative,
      and the numeral reads back as the number. */
  lemma JsStringNumber(n: int)
    ensures n >= 0 ==> JsString(Num(n)) == NatToString(n) && ParseDecimal(JsString(Num(n))) == n
    ensures n < 0 ==> JsString(Num(n)) == "-" + NatToString(-n) && ParseDecimal(JsString(Num(n))[1..]) == -n
  {
    if n >= 0 {
      ParseNatToString(n);
    } else {
      ParseNatToString(-n);
      assert ("-" + NatToString(-n))[1..] == NatToString(-n);
    }
  }

  /** An array prints as the texts of its elements joined by commas, so
      splitting at the commas gives them back when none holds a comma;
      `null` and `undefined` elements give empty pieces. */
  lemma JsStringArray(items: seq<Value>)
    requires items != []
    requires forall i :: 0 <= i < |items| && !IsNullish(items[i]) ==> ',' !in JsString(items[i])
    ensures |Split(JsString(Arr(items)), ',')| == |items|
    ensures forall i :: 0 <= i < |items| ==>
      Split(JsString(Arr(items)), ',')[i] == if IsNullish(items[i]) then "" else JsString(items[i])
  {
    var parts := seq(|items|, i requires 0 <= i < |items| =>
      if IsNullish(items[i]) then "" else JsString(items[i]));
    assert JsString(Arr(items)) == Join(parts, ',');
    SplitUndoesJoin(parts, ',');
  }
}

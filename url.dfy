/**
 * URL building (`buildURL`, src/network/http.ts): the base path is kept as a
 * prefix of the request path, and the query parameters are appended entry by
 * entry. Parsing and serialising URLs is left to the environment.
 */
module Url {
  import opened Wrappers
  import opened Text
  import opened JsValue

  /** What the URL parser reports about a parsed URL. */
  datatype Location = Location(href: string, origin: string, pathname: string)

  /** The page origin, the URL parser `new URL(input, base)` and `JSON.stringify`. */
  datatype UrlEnv = UrlEnv(
    origin: string,
    parse: (string, string) -> Location,
    stringify: Value -> string)

  /** The URL a request goes to: `new URL(path, origin)` followed by the query
      entries appended to its `searchParams`, in order. */
  datatype BuiltUrl = BuiltUrl(origin: string, path: string, query: seq<(string, string)>)

  predicate IsCharOf(c: char, lower: char, upper: char) {
    c == lower || c == upper
  }

  /** `/^https?:/i` */
  predicate HasHttpScheme(s: string) {
    |s| >= 5 && IsCharOf(s[0], 'h', 'H') && IsCharOf(s[1], 't', 'T') &&
    IsCharOf(s[2], 't', 'T') && IsCharOf(s[3], 'p', 'P') &&
    (s[4] == ':' || (|s| >= 6 && IsCharOf(s[4], 's', 'S') && s[5] == ':'))
  }

  /** The parsed base: a relative `baseURL` is resolved against the origin
      first, an empty one stands for the origin itself. */
  function BaseLocation(baseURL: string, env: UrlEnv): Location
  {
    var baseAbs :=
      if baseURL != [] && !HasHttpScheme(baseURL) then env.parse(baseURL, env.origin).href
      else if baseURL != [] then baseURL
      else env.origin;
    env.parse(baseAbs, env.origin)
  }

  /** ASCII letters in lower case, other characters as they are. */
  function LowerAscii(s: string): (r: string)
    ensures |r| == |s|
  {
    seq(|s|, i requires 0 <= i < |s| => if 'A' <= s[i] <= 'Z' then (s[i] as int + 32) as char else s[i])
  }

  /** The scheme test is a case-insensitive prefix test for `http:` or `https:`. */
  lemma HasHttpSchemeSpec(s: string)
    ensures HasHttpScheme(s) <==> StartsWith(LowerAscii(s), "http:") || StartsWith(LowerAscii(s), "https:")
  {
    var l := LowerAscii(s);
    if |s| >= 5 {
      assert l[..5] == [l[0], l[1], l[2], l[3], l[4]];
    }
    if |s| >= 6 {
      assert l[..6] == [l[0], l[1], l[2], l[3], l[4], l[5]];
    }
  }

  /** An absolute `http(s):` base is parsed as it is, any other non-empty
      base is first resolved against the origin, and an empty base is the
      origin. */
  lemma BaseLocationCases(baseURL: string, env: UrlEnv)
    ensures HasHttpScheme(baseURL) ==> BaseLocation(baseURL, env) == env.parse(baseURL, env.origin)
    ensures baseURL != [] && !HasHttpScheme(baseURL) ==>
      BaseLocation(baseURL, env) == env.parse(env.parse(baseURL, env.origin).href, env.origin)
    ensures baseURL == [] ==> BaseLocation(baseURL, env) == env.parse(env.origin, env.origin)
  {
  }

  /** `pathname.replace(/\/$/, '')`: at most one trailing slash removed. */
  function StripTrailingSlash(p: string): (r: string)
    ensures r == p || (p == r + "/")
    ensures p != [] && p[|p| - 1] == '/' ==> |r| == |p| - 1
  {
    if p != [] && p[|p| - 1] == '/' then p[..|p| - 1] else p
  }

  /** The request path: the base path without its trailing slash, then the
      request URL with a leading slash added when it has none. */
  function RequestPath(pathname: string, url: string): (r: string)
    ensures StartsWith(r, StripTrailingSlash(pathname))
    ensures |r| > |StripTrailingSlash(pathname)| && r[|StripTrailingSlash(pathname)|] == '/'
    ensures |url| <= |r| && r[|r| - |url|..] == url
    ensures |r| == |StripTrailingSlash(pathname)| + |url| + (if StartsWith(url, "/") then 0 else 1)
  {
    var base := StripTrailingSlash(pathname);
    var path := if StartsWith(url, "/") then url else "/" + url;
    assert (base + path)[..|base|] == base;
    assert (base + path)[|base + path| - |url|..] == url;
    base + path
  }

  /** A base such as `/api` is kept in front of the request path. */
  lemma RequestPathExamples()
    ensures RequestPath("/api", "/v1/chat/completions") == "/api/v1/chat/completions"
  {
    assert StartsWith("/v1/chat/completions", "/");
  }

  /** A trailing slash of the base and a missing leading slash of the URL
      give one slash between them. */
  lemma RequestPathSlashExample()
    ensures RequestPath("/api/", "v1/models") == "/api/v1/models"
  {
    assert "v1/models"[..1] == "v";
  }

  /** The root base path adds nothing but the slash. */
  lemma RequestPathRootExample()
    ensures RequestPath("/", "x") == "/x"
  {
    assert "x"[..1] == "x";
  }

  /** The query entries one parameter contributes. */
  function ParamEntries(key: string, v: Value, stringify: Value -> string): seq<(string, string)>
  {
    if IsNullish(v) then []
    else if v.Arr? then ElementEntries(key, v.items)
    else if IsPlainObject(v) then [(key, stringify(v))]
    else [(key, JsString(v))]
  }

  /** A null or undefined parameter gives no entry, an array of n elements
      gives n entries under its key in element order, a plain object one
      JSON-encoded entry and any other value one `String(v)` entry. */
  lemma ParamEntriesSpec(key: string, v: Value, stringify: Value -> string)
    ensures var r := ParamEntries(key, v, stringify);
      && (IsNullish(v) ==> r == [])
      && (v.Arr? ==> |r| == |v.items| && forall i :: 0 <= i < |r| ==> r[i] == (key, JsString(v.items[i])))
      && (v.Obj? ==> r == [(key, stringify(v))])
      && (!IsNullish(v) && !v.Arr? && !v.Obj? ==> r == [(key, JsString(v))])
      && |r| == Arity(v)
  {
  }

  function ElementEntries(key: string, items: seq<Value>): (r: seq<(string, string)>)
  {
    seq(|items|, i requires 0 <= i < |items| => (key, JsString(items[i])))
  }

  /** How many entries a parameter contributes. */
  function Arity(v: Value): nat {
    if IsNullish(v) then 0 else if v.Arr? then |v.items| else 1
  }

  /** The query entries of all parameters, in `Object.entries` order. */
  function QueryOf(params: seq<(string, Value)>, stringify: Value -> string): seq<(string, string)>
  {
    if params == [] then []
    else
      var n := |params| - 1;
      QueryOf(params[..n], stringify) + ParamEntries(params[n].0, params[n].1, stringify)
  }

  /** The URL `buildURL` produces, as a function of its inputs. */
  function UrlFor(baseURL: string, url: string, params: Option<seq<(string, Value)>>, env: UrlEnv): BuiltUrl
  {
    var base := BaseLocation(baseURL, env);
    BuiltUrl(base.origin, RequestPath(base.pathname, url),
             if params.Some? then QueryOf(params.value, env.stringify) else [])
  }

  /** `buildURL`: resolves the base, joins the paths, then appends every
      parameter to the query in a loop over the entries. */
  method BuildUrl(baseURL: string, url: string, params: Option<seq<(string, Value)>>, env: UrlEnv)
    returns (u: BuiltUrl)
    ensures u == UrlFor(baseURL, url, params, env)
  {
    var base := BaseLocation(baseURL, env);
    var basePath := StripTrailingSlash(base.pathname);
    var urlPath := if StartsWith(url, "/") then url else "/" + url;
    var query: seq<(string, string)> := [];
    if params.Some? {
      var ps := params.value;
      for i := 0 to |ps|
        invariant query == QueryOf(ps[..i], env.stringify)
      {
        var (k, v) := ps[i];
        query := AppendParam(query, k, v, env.stringify);
        assert ps[..i + 1] == ps[..i] + [(k, v)];
        QueryOfSnoc(ps[..i], k, v, env.stringify);
      }
      assert ps[..|ps|] == ps;
    }
    u := BuiltUrl(base.origin, basePath + urlPath, query);
  }

  /** The body of the `forEach` over the parameters: appends the entries
      of one parameter to the query. */
  method AppendParam(query: seq<(string, string)>, key: string, v: Value, stringify: Value -> string)
    returns (q: seq<(string, string)>)
    ensures q == query + ParamEntries(key, v, stringify)
  {
    if IsNullish(v) {
      q := query;
    } else if v.Arr? {
      q := AppendElements(query, key, v.items);
    } else if IsPlainObject(v) {
      q := query + [(key, stringify(v))];
    } else {
      q := query + [(key, JsString(v))];
    }
  }

  /** `v.forEach(i => u.searchParams.append(k, String(i)))`. */
  method AppendElements(query: seq<(string, string)>, key: string, items: seq<Value>) returns (q: seq<(string, string)>)
    ensures q == query + ElementEntries(key, items)
  {
    q := query;
    for j := 0 to |items|
      invariant q == query + ElementEntries(key, items[..j])
    {
      assert ElementEntries(key, items[..j + 1]) == ElementEntries(key, items[..j]) + [(key, JsString(items[j]))];
      q := q + [(key, JsString(items[j]))];
    }
    assert items[..|items|] == items;
  }

  /** Adding a parameter at the end adds its entries at the end. */
  lemma QueryOfSnoc(ps: seq<(string, Value)>, key: string, v: Value, stringify: Value -> string)
    ensures QueryOf(ps + [(key, v)], stringify) == QueryOf(ps, stringify) + ParamEntries(key, v, stringify)
  {
    assert (ps + [(key, v)])[..|ps|] == ps;
  }

  /** The query of consecutive parameter lists is the concatenation of their
      queries: parameters are serialised in input order. */
  lemma {:induction false} QueryOfAppend(a: seq<(string, Value)>, b: seq<(string, Value)>, stringify: Value -> string)
    ensures QueryOf(a + b, stringify) == QueryOf(a, stringify) + QueryOf(b, stringify)
    decreases |b|
  {
    if b == [] {
      assert a + b == a;
    } else {
      var n := |b| - 1;
      var front, p := b[..n], b[n];
      var e := ParamEntries(p.0, p.1, stringify);
      assert b == front + [p];
      assert a + b == (a + front) + [p];
      calc {
        QueryOf(a + b, stringify);
        QueryOf((a + front) + [p], stringify);
        { QueryOfSnoc(a + front, p.0, p.1, stringify); }
        QueryOf(a + front, stringify) + e;
        { QueryOfAppend(a, front, stringify); }
        (QueryOf(a, stringify) + QueryOf(front, stringify)) + e;
        { AppendAssoc(QueryOf(a, stringify), QueryOf(front, stringify), e); }
        QueryOf(a, stringify) + (QueryOf(front, stringify) + e);
        { QueryOfSnoc(front, p.0, p.1, stringify); }
        QueryOf(a, stringify) + QueryOf(front + [p], stringify);
      }
    }
  }

  /** The query holds exactly the entries of the parameters one after the other. */
  lemma {:induction false} QueryOfSingle(key: string, v: Value, stringify: Value -> string)
    ensures QueryOf([(key, v)], stringify) == ParamEntries(key, v, stringify)
  {
    assert [(key, v)][..0] == [];
  }

  /** The number of entries is the sum of the parameters' arities. */
  function TotalArity(params: seq<(string, Value)>): nat {
    if params == [] then 0 else TotalArity(params[..|params| - 1]) + Arity(params[|params| - 1].1)
  }

  lemma {:induction false} QueryOfLength(params: seq<(string, Value)>, stringify: Value -> string)
    ensures |QueryOf(params, stringify)| == TotalArity(params)
    decreases |params|
  {
    if params != [] {
      QueryOfLength(params[..|params| - 1], stringify);
    }
  }

  /** Every key in the query is the key of a parameter that is neither null
      nor undefined. */
  lemma {:induction false} QueryOfKeys(params: seq<(string, Value)>, stringify: Value -> string, i: nat)
    requires i < |QueryOf(params, stringify)|
    ensures exists j :: 0 <= j < |params| && params[j].0 == QueryOf(params, stringify)[i].0 && !IsNullish(params[j].1)
    decreases |params|
  {
    var n := |params| - 1;
    var front := QueryOf(params[..n], stringify);
    if i < |front| {
      QueryOfKeys(params[..n], stringify, i);
      var j :| 0 <= j < n && params[..n][j].0 == front[i].0 && !IsNullish(params[..n][j].1);
      assert params[j] == params[..n][j];
    } else {
      var e := ParamEntries(params[n].0, params[n].1, stringify);
      assert QueryOf(params, stringify)[i] == e[i - |front|];
      assert !IsNullish(params[n].1);
    }
  }

  /** `params={a:1,b:[2,3],c:null}` gives `a=1&b=2&b=3` and no `c`. */
  lemma QueryExample(stringify: Value -> string)
    ensures QueryOf([("a", Num(1)), ("b", Arr([Num(2), Num(3)])), ("c", Null)], stringify)
         == [("a", "1"), ("b", "2"), ("b", "3")]
  {
    var ps := [("a", Num(1)), ("b", Arr([Num(2), Num(3)])), ("c", Null)];
    assert ps[..2][..1] == [("a", Num(1))];
    assert ps[..2] == [("a", Num(1)), ("b", Arr([Num(2), Num(3)]))];
    assert [("a", Num(1))][..0] == [];
    assert JsString(Num(1)) == "1" && JsString(Num(2)) == "2" && JsString(Num(3)) == "3";
  }
}

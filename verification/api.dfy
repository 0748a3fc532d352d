/** The remote access client: URL joining, the catalog fetch and the health check.
    `fetch` is an oracle from a URL to what the network delivered for it. */
module Api {
  import opened Wrappers
  import opened Types

  predicate EndsWithSlash(s: string) { |s| > 0 && s[|s| - 1] == '/' }

  predicate StartsWithSlash(s: string) { |s| > 0 && s[0] == '/' }

  /** `replace(/\/$/, '')`: one trailing slash removed, if there is one. */
  function DropTrailingSlash(s: string): string
  {
    if EndsWithSlash(s) then s[..|s| - 1] else s
  }

  /** `replace(/^\//, '')`: one leading slash removed, if there is one. */
  function DropLeadingSlash(s: string): string
  {
    if StartsWithSlash(s) then s[1..] else s
  }

  /** Joins a base URL and a path with a single `/`, removing at most one slash on each side.
      The contract characterises the result without the helpers: the base (completed
      by a `/` if it lacks one) is a prefix, the path (preceded by a `/` if it lacks one)
      is a suffix, and the length shows the two share exactly that one slash. */
  function JoinUrl(base: string, path: string): (r: string)
    ensures |r| == |base| + |path| + 1 - (if EndsWithSlash(base) then 1 else 0)
                                       - (if StartsWithSlash(path) then 1 else 0)
    ensures EndsWithSlash(base) ==> r[..|base|] == base
    ensures !EndsWithSlash(base) ==> r[..|base| + 1] == base + "/"
    ensures StartsWithSlash(path) ==> r[|r| - |path|..] == path
    ensures !StartsWithSlash(path) ==> r[|r| - |path| - 1..] == "/" + path
  {
    var b := DropTrailingSlash(base);
    var p := DropLeadingSlash(path);
    var r := b + "/" + p;
    assert EndsWithSlash(base) ==> base == b + "/";
    assert StartsWithSlash(path) ==> path == "/" + p;
    assert r[..|b| + 1] == b + "/";
    assert r[|b|..] == "/" + p;
    r
  }

  /** Without a slash on either side, joining is plain concatenation around one `/`. */
  lemma JoinUrlPlain(base: string, path: string)
    requires !EndsWithSlash(base) && !StartsWithSlash(path)
    ensures JoinUrl(base, path) == base + "/" + path
  {
    var r := JoinUrl(base, path);
    assert r == r[..|base| + 1] + r[|base| + 1..];
    assert r[|base|..] == "/" + path;
  }

  /** One trailing slash on the base is absorbed, and only when the base had none already. */
  lemma JoinUrlAbsorbsTrailingSlash(base: string, path: string)
    ensures JoinUrl(base + "/", path) == JoinUrl(base, path) <==> !EndsWithSlash(base)
  {
    var b := base + "/";
    assert DropTrailingSlash(b) == base;
    if EndsWithSlash(base) {
      assert |JoinUrl(b, path)| == |JoinUrl(base, path)| + 1;
    }
  }

  /** One leading slash on the path is absorbed, and only when the path had none already. */
  lemma JoinUrlAbsorbsLeadingSlash(base: string, path: string)
    ensures JoinUrl(base, "/" + path) == JoinUrl(base, path) <==> !StartsWithSlash(path)
  {
    var p := "/" + path;
    assert DropLeadingSlash(p) == path;
    if StartsWithSlash(path) {
      assert |JoinUrl(base, p)| == |JoinUrl(base, path)| + 1;
    }
  }

  /** Slashes are never collapsed: a doubled slash on either side survives as an extra slash. */
  lemma JoinUrlKeepsExtraSlashes()
    ensures JoinUrl("a//", "//b") == "a///b"
  {
    assert DropTrailingSlash("a//") == "a/";
    assert DropLeadingSlash("//b") == "/b";
  }

  /** A minimal JSON value. Objects are maps, as `JSON.parse` keeps the last of duplicate keys. */
  datatype Json =
    | JNull
    | JBool(b: bool)
    | JNumber(n: int)
    | JString(s: string)
    | JArray(items: seq<Json>)
    | JObject(members: map<string, Json>)

  /** What the body of a response turned into when parsed with `response.json()`. */
  datatype Body<+T> = Malformed | Parsed(value: T)

  /** What `fetch` delivered for one URL: a transport failure (refused, timed out,
      unreachable) or a response with a status and a body. */
  datatype Fetched<+T> = NetworkFailure | Response(status: int, body: Body<T>)
  {
    /** `response.ok`: the status is in the range 200-299. */
    predicate Ok() { Response? && 200 <= status <= 299 }
  }

  /** Why `fetchCatalog` rejects. */
  datatype FetchError = TransportError | HttpError(status: int) | ParseError

  const CatalogPath: string := "/catalog.json"
  const HealthPath: string := "/health"

  /** `fetchCatalog`: fetch `{server}/catalog.json`; any non-ok status is an error carrying
      the status, without looking at the body; an ok response yields its parsed body. */
  function FetchCatalog(serverUrl: string, fetch: string -> Fetched<Catalog>): (r: Result<Catalog, FetchError>)
    ensures var resp := fetch(JoinUrl(serverUrl, CatalogPath));
            && (r.Success? <==> resp.Ok() && resp.body.Parsed?)
            && (r.Success? ==> r.value == resp.body.value)
            && (resp.NetworkFailure? ==> r == Failure(TransportError))
            && (resp.Response? && !resp.Ok() ==> r == Failure(HttpError(resp.status)))
  {
    match fetch(JoinUrl(serverUrl, CatalogPath))
    case NetworkFailure => Failure(TransportError)
    case Response(status, body) =>
      if !(200 <= status <= 299) then Failure(HttpError(status))
      else match body
        case Malformed => Failure(ParseError)
        case Parsed(catalog) => Success(catalog)
  }

  /** Only the catalog URL is consulted: two networks that agree there give the same result. */
  lemma FetchCatalogReadsOnlyCatalogUrl(serverUrl: string, f: string -> Fetched<Catalog>, g: string -> Fetched<Catalog>)
    requires f(JoinUrl(serverUrl, CatalogPath)) == g(JoinUrl(serverUrl, CatalogPath))
    ensures FetchCatalog(serverUrl, f) == FetchCatalog(serverUrl, g)
  {
  }

  /** `data.ok === true`: strict comparison with the boolean, so `"true"` or `1` do not count,
      and a body that is not an object has no `ok` member at all. */
  predicate SignalsOk(data: Json)
  {
    data.JObject? && "ok" in data.members && data.members["ok"] == JBool(true)
  }

  /** `testServerConnection`: true exactly when `{server}/health` answers with an ok status
      and a body whose `ok` member is the boolean true; every failure is `false`, never an error. */
  function TestServerConnection(serverUrl: string, fetch: string -> Fetched<Json>): (r: bool)
    ensures var resp := fetch(JoinUrl(serverUrl, HealthPath));
            r <==> resp.Ok() && resp.body.Parsed? && SignalsOk(resp.body.value)
  {
    match fetch(JoinUrl(serverUrl, HealthPath))
    case NetworkFailure => false
    case Response(status, body) =>
      if !(200 <= status <= 299) then false
      else match body
        case Malformed => false
        case Parsed(data) => SignalsOk(data)
  }

  /** The health check consults nothing but the response for `{server}/health`. */
  lemma TestServerConnectionReadsOnlyHealthUrl(serverUrl: string, f: string -> Fetched<Json>, g: string -> Fetched<Json>)
    requires f(JoinUrl(serverUrl, HealthPath)) == g(JoinUrl(serverUrl, HealthPath))
    ensures TestServerConnection(serverUrl, f) == TestServerConnection(serverUrl, g)
  {
  }

  /** The four failure modes of the health check, each on its own, and the one success. */
  lemma HealthCheckCases(serverUrl: string, fetch: string -> Fetched<Json>)
    ensures var resp := fetch(JoinUrl(serverUrl, HealthPath));
            && (resp.NetworkFailure? ==> !TestServerConnection(serverUrl, fetch))
            && (resp.Response? && resp.status == 503 ==> !TestServerConnection(serverUrl, fetch))
            && (resp == Response(200, Parsed(JObject(map["ok" := JBool(false)]))) ==> !TestServerConnection(serverUrl, fetch))
            && (resp == Response(200, Parsed(JObject(map["ok" := JString("true")]))) ==> !TestServerConnection(serverUrl, fetch))
            && (resp == Response(200, Malformed) ==> !TestServerConnection(serverUrl, fetch))
            && (resp == Response(200, Parsed(JObject(map["ok" := JBool(true)]))) ==> TestServerConnection(serverUrl, fetch))
  {
    var m := map["ok" := JBool(true)];
    assert "ok" in m;
  }
}

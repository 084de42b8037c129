// The HTTP fixtures of the test harness
// (scripts/pylib/pytest-test-harness/src/test_harness/fixtures/http.py): the
// `http:host:port` and `https:host:port` fixture strings, the base URL
// they give, and how HttpClient joins a path to it and picks a timeout.
//
// The requests session and the requests themselves are not modelled.
module HarnessHttp {
  import opened Wrappers
  import opened PyText
  import HF = HarnessFixtures

  const DEFAULT_HOST: string := "127.0.0.1"
  const DEFAULT_PORT: int := 8080
  const DEFAULT_SCHEME: string := "http"

  /** HttpConfig; its defaults are DEFAULT_HOST, DEFAULT_PORT and DEFAULT_SCHEME. */
  datatype HttpConfig = HttpConfig(host: string, port: int, scheme: string)

  const DEFAULT_CONFIG: HttpConfig := HttpConfig(DEFAULT_HOST, DEFAULT_PORT, DEFAULT_SCHEME)

  /** The base_url property, f'{scheme}://{host}:{port}'. */
  function BaseUrl(c: HttpConfig): (r: string)
    ensures StartsWith(r, c.scheme + "://" + c.host + ":")
  {
    var prefix := c.scheme + "://" + c.host + ":";
    assert (prefix + IntString(c.port))[..|prefix|] == prefix;
    prefix + IntString(c.port)
  }

  /** HttpConfig.from_fixture; None stands for the ValueError it raises. */
  function FromFixture(s: string): (r: Option<HttpConfig>)
    ensures r.None? <==> |Split(s, ':')| < 3 || PyInt(Split(s, ':')[2]).None?
    ensures r.Some? ==> var p := Split(s, ':');
      r.value.scheme == p[0] && r.value.host == p[1] && PyInt(p[2]) == Some(r.value.port)
  {
    var parts := Split(s, ':');
    if |parts| < 3 then None
    else match PyInt(parts[2])
      case None => None
      case Some(port) => Some(HttpConfig(parts[1], port, parts[0]))
  }

  /** An `http:` or `https:` entry; a `tcp:` or `udp:` entry of the same list is never one. */
  predicate IsHttp(s: string)
    ensures StartsWith(s, "http:") ==> IsHttp(s)
    ensures IsHttp(s) ==> !StartsWith(s, "tcp:") && !StartsWith(s, "udp:")
  {
    var b := StartsWith(s, "http:") || StartsWith(s, "https:");
    assert b ==> s[0] == 'h' by {
      if StartsWith(s, "http:") { assert s[..5][0] == s[0]; }
      else if b { assert s[..6][0] == s[0]; }
    }
    assert StartsWith(s, "tcp:") ==> s[0] == 't' by {
      if StartsWith(s, "tcp:") { assert s[..4][0] == s[0]; }
    }
    assert StartsWith(s, "udp:") ==> s[0] == 'u' by {
      if StartsWith(s, "udp:") { assert s[..4][0] == s[0]; }
    }
    b
  }

  /** parse_http_fixture; a None or empty list finds nothing. */
  function ParseHttpFixture(fixtures: Option<seq<string>>): (r: Option<HttpConfig>)
    ensures r.Some? ==> (fixtures.Some? &&
      exists k | 0 <= k < |fixtures.value| :: IsHttp(fixtures.value[k]) && FromFixture(fixtures.value[k]) == r)
  {
    if fixtures.None? || |fixtures.value| == 0 then None else HF.FirstParsed(fixtures.value, IsHttp, FromFixture)
  }

  /** The http_config fixture: the parsed entry, or http://127.0.0.1:8080. */
  function HttpConfigFor(fixtures: Option<seq<string>>): (r: HttpConfig)
    ensures ParseHttpFixture(fixtures).None? ==> r == DEFAULT_CONFIG
    ensures ParseHttpFixture(fixtures).Some? ==> r == ParseHttpFixture(fixtures).value
  {
    match ParseHttpFixture(fixtures)
      case None => DEFAULT_CONFIG
      case Some(c) => c
  }

  /** `timeout or self._timeout`: a timeout of None or 0 means the client's own. */
  function RequestTimeout(timeout: Option<real>, fallback: real): (t: real)
    ensures t == fallback || timeout == Some(t)
    ensures t == 0.0 ==> fallback == 0.0
  {
    if timeout.Some? && timeout.value != 0.0 then timeout.value else fallback
  }

  /** HttpClient: the base URL without trailing slashes, and the default timeout. */
  class HttpClient {
    const baseUrl: string
    const timeout: real

    constructor (baseUrl: string, timeout: real)
      ensures this.baseUrl == RStrip(baseUrl, '/') && this.timeout == timeout
      ensures |this.baseUrl| == 0 || this.baseUrl[|this.baseUrl| - 1] != '/'
    {
      this.baseUrl := RStrip(baseUrl, '/');
      this.timeout := timeout;
    }

    /** _url: a path that starts with '/' is appended as it is; any other gets one '/' in front. */
    function Url(path: string): (r: string)
      ensures |r| > |baseUrl| && r[..|baseUrl|] == baseUrl && r[|baseUrl|] == '/'
      ensures r[|baseUrl| + 1..] == if StartsWith(path, "/") then path[1..] else path
    {
      if StartsWith(path, "/") then baseUrl + path else baseUrl + "/" + path
    }

    /** The timeout a request passes on. */
    function Timeout(t: Option<real>): (r: real)
      ensures r == timeout || t == Some(r)
    {
      RequestTimeout(t, timeout)
    }
  }

  /**
   * The http_client fixture: a client on the configuration's base URL,
   * with the timeout of an http_timeout marker, else of --http-timeout,
   * else 10 seconds.
   */
  method HttpClientFor(c: HttpConfig, markerArgs: Option<seq<real>>, option: Option<real>)
    returns (client: HttpClient)
    ensures client.baseUrl == BaseUrl(c)
    ensures client.timeout == HF.FixtureTimeout(markerArgs, option)
  {
    BaseUrlKept(c);
    client := new HttpClient(BaseUrl(c), HF.FixtureTimeout(markerArgs, option));
  }

  // ---- Properties ----

  /** from_fixture on a string whose parts are known. */
  lemma FromFixtureParts(s: string, parts: seq<string>, port: int)
    requires Split(s, ':') == parts && |parts| == 3 && PyInt(parts[2]) == Some(port)
    ensures FromFixture(s) == Some(HttpConfig(parts[1], port, parts[0]))
  {
  }

  /** from_fixture reads back the scheme, host and port of `scheme:host:port`. */
  lemma FromFixtureRoundTrip(scheme: string, host: string, port: int)
    requires ':' !in scheme && ':' !in host
    ensures FromFixture(scheme + ":" + host + ":" + IntString(port)) == Some(HttpConfig(host, port, scheme))
  {
    var p := IntString(port);
    IntStringChars(port, ':');
    PyIntOfIntString(port);
    var s := scheme + ":" + host + ":" + p;
    assert s == scheme + [':'] + host + [':'] + p;
    SplitThree(scheme, host, p, ':');
    FromFixtureParts(s, [scheme, host, p], port);
  }

  /**
   * parse_http_fixture returns a configuration exactly when some entry
   * starts with `http:` or `https:` and parses, and then it is the first
   * such entry's.
   */
  lemma ParseHttpFixtureFirst(fixtures: seq<string>)
    ensures ParseHttpFixture(Some(fixtures)).Some? <==>
      exists k | 0 <= k < |fixtures| :: IsHttp(fixtures[k]) && FromFixture(fixtures[k]).Some?
    ensures ParseHttpFixture(Some(fixtures)).Some? ==>
      exists k | 0 <= k < |fixtures| :: IsHttp(fixtures[k]) && ParseHttpFixture(Some(fixtures)) == FromFixture(fixtures[k])
        && forall j | 0 <= j < k :: !(IsHttp(fixtures[j]) && FromFixture(fixtures[j]).Some?)
  {
    HF.FirstParsedSpec(fixtures, IsHttp, FromFixture);
  }

  /**
   * The URL of a path is the base URL, then exactly one '/', then the
   * path without one leading '/'.
   */
  lemma UrlJoin(c: HttpClient, path: string)
    ensures c.Url(path) == c.baseUrl + "/" + (if StartsWith(path, "/") then path[1..] else path)
  {
    if StartsWith(path, "/") {
      assert path == "/" + path[1..];
    }
  }

  /** A client made from a base URL with trailing slashes builds the same URLs as one made without. */
  lemma TrailingSlashesIgnored(base: string, n: nat)
    ensures RStrip(base + seq(n, _ => '/'), '/') == RStrip(base, '/')
    decreases n
  {
    if n > 0 {
      assert (base + seq(n, _ => '/'))[..|base| + n - 1] == base + seq(n - 1, _ => '/');
      TrailingSlashesIgnored(base, n - 1);
    } else {
      assert base + seq(0, _ => '/') == base;
    }
  }

  /** A base URL ends in the port's last digit, so stripping trailing slashes keeps it whole. */
  lemma BaseUrlKept(c: HttpConfig)
    ensures RStrip(BaseUrl(c), '/') == BaseUrl(c)
  {
    var b := BaseUrl(c);
    var p := IntString(c.port);
    IntStringChars(c.port, '/');
    assert b[|b| - 1] == p[|p| - 1];
  }

  /** A per-request timeout of None or 0 falls back to the client's; any other wins. */
  lemma TimeoutFallback(c: HttpClient, t: real)
    ensures c.Timeout(None) == c.timeout && c.Timeout(Some(0.0)) == c.timeout
    ensures t != 0.0 ==> c.Timeout(Some(t)) == t
  {
  }
}

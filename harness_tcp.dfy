// The TCP fixtures of the test harness
// (scripts/pylib/pytest-test-harness/src/test_harness/fixtures/tcp.py): the
// `tcp:ip:port` fixture string, the defaults when a device has none, and
// the connect loop that gives a starting device ten tries.
//
// Whether each connect attempt succeeds is an input; the socket, its
// timeout and the 0.2 s pause are not modelled beyond counting the pauses.
module HarnessTcp {
  import opened Wrappers
  import opened PyText
  import HF = HarnessFixtures

  const DEFAULT_IP: string := "127.0.0.1"
  const DEFAULT_PORT: int := 4242

  /** How many times tcp_connection tries to connect. */
  const CONNECT_ATTEMPTS: nat := 10

  /** TcpConfig; its defaults are DEFAULT_IP and DEFAULT_PORT. */
  datatype TcpConfig = TcpConfig(ip: string, port: int)

  const DEFAULT_CONFIG: TcpConfig := TcpConfig(DEFAULT_IP, DEFAULT_PORT)

  /** TcpConfig.from_fixture; None stands for the ValueError it raises. */
  function FromFixture(s: string): (r: Option<TcpConfig>)
    ensures r.None? <==> |Split(s, ':')| < 3 || PyInt(Split(s, ':')[2]).None?
    ensures r.Some? ==> var p := Split(s, ':');
      r.value.ip == p[1] && PyInt(p[2]) == Some(r.value.port)
  {
    var parts := Split(s, ':');
    if |parts| < 3 then None
    else match PyInt(parts[2])
      case None => None
      case Some(port) => Some(TcpConfig(parts[1], port))
  }

  predicate IsTcp(s: string) {
    StartsWith(s, "tcp:")
  }

  /** parse_tcp_fixture; a None or empty list finds nothing. */
  function ParseTcpFixture(fixtures: Option<seq<string>>): (r: Option<TcpConfig>)
    ensures r.Some? ==> (fixtures.Some? &&
      exists k | 0 <= k < |fixtures.value| :: IsTcp(fixtures.value[k]) && FromFixture(fixtures.value[k]) == r)
  {
    if fixtures.None? || |fixtures.value| == 0 then None else HF.FirstParsed(fixtures.value, IsTcp, FromFixture)
  }

  /** The tcp_config fixture: the parsed entry, or 127.0.0.1:4242. */
  function TcpConfigFor(fixtures: Option<seq<string>>): (r: TcpConfig)
    ensures ParseTcpFixture(fixtures).None? ==> r == DEFAULT_CONFIG
    ensures ParseTcpFixture(fixtures).Some? ==> r == ParseTcpFixture(fixtures).value
  {
    match ParseTcpFixture(fixtures)
      case None => DEFAULT_CONFIG
      case Some(c) => c
  }

  // ---- Properties ----


  /** from_fixture on a string whose parts are known. */
  lemma FromFixtureParts(s: string, parts: seq<string>, port: int)
    requires Split(s, ':') == parts && |parts| == 3 && PyInt(parts[2]) == Some(port)
    ensures FromFixture(s) == Some(TcpConfig(parts[1], port))
  {
  }

  /** from_fixture reads back the ip and port a `tcp:ip:port` string names. */
  lemma FromFixtureRoundTrip(ip: string, port: int)
    requires ':' !in ip
    ensures FromFixture("tcp:" + ip + ":" + IntString(port)) == Some(TcpConfig(ip, port))
  {
    var p := IntString(port);
    IntStringChars(port, ':');
    PyIntOfIntString(port);
    var s := "tcp:" + ip + ":" + p;
    assert s == "tcp" + [':'] + ip + [':'] + p;
    SplitThree("tcp", ip, p, ':');
    FromFixtureParts(s, ["tcp", ip, p], port);
  }

  /** Fewer than three parts raise ValueError: `tcp:ip` is refused. */
  lemma FromFixtureNeedsPort(ip: string)
    requires ':' !in ip
    ensures FromFixture("tcp:" + ip) == None
  {
    assert "tcp:" + ip == "tcp" + [':'] + ip;
    SplitHead("tcp:" + ip, ':', "tcp", ip);
    SplitNone(ip, ':');
  }

  /**
   * parse_tcp_fixture returns a configuration exactly when some entry
   * starts with `tcp:` and parses, and then it is the first such entry's.
   */
  lemma ParseTcpFixtureFirst(fixtures: seq<string>)
    ensures ParseTcpFixture(Some(fixtures)).Some? <==>
      exists k | 0 <= k < |fixtures| :: IsTcp(fixtures[k]) && FromFixture(fixtures[k]).Some?
    ensures ParseTcpFixture(Some(fixtures)).Some? ==>
      exists k | 0 <= k < |fixtures| :: IsTcp(fixtures[k]) && ParseTcpFixture(Some(fixtures)) == FromFixture(fixtures[k])
        && forall j | 0 <= j < k :: !(IsTcp(fixtures[j]) && FromFixture(fixtures[j]).Some?)
  {
    HF.FirstParsedSpec(fixtures, IsTcp, FromFixture);
  }

  // ---- The connect loop ----

  /** How tcp_connection ends: connected on the given try (from 0), or ConnectionError. */
  datatype Connection = Connected(attempt: nat) | ConnectionFailed

  /**
   * tcp_connection's loop: up to ten tries, a pause after each failed one.
   * `succeeds(k)` says whether try k connects.
   */
  method Connect(succeeds: nat -> bool) returns (r: Connection, pauses: nat)
    ensures r.Connected? <==> exists k | 0 <= k < CONNECT_ATTEMPTS :: succeeds(k)
    ensures r.Connected? ==>
      r.attempt < CONNECT_ATTEMPTS && succeeds(r.attempt)
      && (forall j | 0 <= j < r.attempt :: !succeeds(j)) && pauses == r.attempt
    ensures r.ConnectionFailed? ==> pauses == CONNECT_ATTEMPTS
  {
    pauses := 0;
    for attempt := 0 to CONNECT_ATTEMPTS
      invariant pauses == attempt
      invariant forall j | 0 <= j < attempt :: !succeeds(j)
    {
      if succeeds(attempt) {
        return Connected(attempt), pauses;
      }
      pauses := pauses + 1;
    }
    r := ConnectionFailed;
  }
}

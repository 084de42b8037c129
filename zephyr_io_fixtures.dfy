// The TCP fixture helpers of the zephyr_io pytest plugin
// (scripts/pylib/pytest-zephyr-io-harness/src/zephyr_io_harness/fixtures.py):
// its own parse_tcp_fixture, which checks the part count and the port
// inline instead of through from_fixture, and the timeout order of its
// tcp_connection. Its TcpConfig has the same two fields as the test
// harness's, without defaults; a device without a tcp fixture skips the test.
module ZephyrIoFixtures {
  import opened Wrappers
  import opened PyText
  import HF = HarnessFixtures
  import HT = HarnessTcp

  /** The loop of parse_tcp_fixture over the remaining entries. */
  function FirstTcp(fixtures: seq<string>): (r: Option<HT.TcpConfig>)
    ensures r.Some? ==> exists k | 0 <= k < |fixtures| :: HT.IsTcp(fixtures[k]) && HT.FromFixture(fixtures[k]) == r
    decreases |fixtures|
  {
    if |fixtures| == 0 then None
    else
      var f := fixtures[0];
      assert forall k | 0 <= k < |fixtures[1..]| :: fixtures[1..][k] == fixtures[k + 1];
      if StartsWith(f, "tcp:") then
        var parts := Split(f, ':');
        if |parts| >= 3 then
          match PyInt(parts[2])
            case Some(port) => Some(HT.TcpConfig(parts[1], port))
            case None => FirstTcp(fixtures[1..])
        else FirstTcp(fixtures[1..])
      else FirstTcp(fixtures[1..])
  }

  /** parse_tcp_fixture; a None or empty list finds nothing. */
  function ParseTcpFixture(fixtures: Option<seq<string>>): (r: Option<HT.TcpConfig>)
    ensures r.Some? ==> (fixtures.Some? &&
      exists k | 0 <= k < |fixtures.value| :: HT.IsTcp(fixtures.value[k]) && HT.FromFixture(fixtures.value[k]) == r)
  {
    if fixtures.None? || |fixtures.value| == 0 then None else FirstTcp(fixtures.value)
  }

  /**
   * The tcp_config fixture: the parsed entry, or None for the skip. Where
   * the test harness's fixture would fall back to its defaults this one
   * skips; otherwise both plugins hand the test the same configuration.
   */
  function TcpConfigFor(fixtures: Option<seq<string>>): (r: Option<HT.TcpConfig>)
    ensures r.None? <==> HT.ParseTcpFixture(fixtures).None?
    ensures r.Some? ==> r.value == HT.TcpConfigFor(fixtures)
  {
    ParseTcpFixtureAgrees(fixtures);
    ParseTcpFixture(fixtures)
  }

  /** The timeout of tcp_connection: marker argument, then --tcp-timeout, then 10 seconds. */
  function ConnectionTimeout(markerArgs: Option<seq<real>>, option: Option<real>): (t: real)
    ensures (markerArgs.Some? && |markerArgs.value| > 0 && t == markerArgs.value[0]) || option == Some(t) || t == HF.DEFAULT_TIMEOUT
  {
    HF.FixtureTimeout(markerArgs, option)
  }

  // ---- Properties ----

  /**
   * The two plugins read a fixture list alike: this parse_tcp_fixture
   * finds the same configuration as the test harness's, for every list.
   */
  lemma {:induction false} FirstTcpAgrees(fixtures: seq<string>)
    ensures FirstTcp(fixtures) == HF.FirstParsed(fixtures, HT.IsTcp, HT.FromFixture)
    decreases |fixtures|
  {
    if |fixtures| > 0 {
      FirstTcpAgrees(fixtures[1..]);
    }
  }

  lemma ParseTcpFixtureAgrees(fixtures: Option<seq<string>>)
    ensures ParseTcpFixture(fixtures) == HT.ParseTcpFixture(fixtures)
  {
    if fixtures.Some? {
      FirstTcpAgrees(fixtures.value);
    }
  }

  /**
   * So it returns the first `tcp:` entry with three parts and an integer
   * port, passing over the others, and None when there is none.
   */
  lemma ParseTcpFixtureFirst(fixtures: seq<string>)
    ensures ParseTcpFixture(Some(fixtures)).Some? <==>
      exists k | 0 <= k < |fixtures| :: HT.IsTcp(fixtures[k]) && HT.FromFixture(fixtures[k]).Some?
    ensures ParseTcpFixture(Some(fixtures)).Some? ==>
      exists k | 0 <= k < |fixtures| :: HT.IsTcp(fixtures[k]) && ParseTcpFixture(Some(fixtures)) == HT.FromFixture(fixtures[k])
        && forall j | 0 <= j < k :: !(HT.IsTcp(fixtures[j]) && HT.FromFixture(fixtures[j]).Some?)
  {
    ParseTcpFixtureAgrees(Some(fixtures));
    HT.ParseTcpFixtureFirst(fixtures);
  }

  /** The timeout order: a marker argument beats the option, the option beats 10 seconds. */
  lemma ConnectionTimeoutPriority(t: real, o: real)
    ensures ConnectionTimeout(Some([t]), Some(o)) == t
    ensures ConnectionTimeout(None, Some(o)) == o && ConnectionTimeout(Some([]), Some(o)) == o
    ensures ConnectionTimeout(None, None) == HF.DEFAULT_TIMEOUT
  {
    HF.TimeoutPriority(t, [], Some(o), o);
  }
}

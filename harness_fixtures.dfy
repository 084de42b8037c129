// What the pytest harness plugins share
// (scripts/pylib/pytest-test-harness/src/test_harness/fixtures/udp.py, tcp.py
// and http.py, and scripts/pylib/pytest-zephyr-io-harness/src/zephyr_io_harness/fixtures.py):
// the search of a device's fixture strings for the first entry of a kind
// that parses, and the order in which a fixture picks its timeout.
module HarnessFixtures {
  import opened Wrappers

  /** The timeout when neither a marker nor the command line gives one. */
  const DEFAULT_TIMEOUT: real := 10.0

  /**
   * The loop of the parse_*_fixture helpers over a fixture list: the first
   * entry `accept` admits and `parse` can read. An admitted entry that does
   * not parse (the ValueError or IndexError the helpers catch) is skipped.
   */
  function FirstParsed<T>(fixtures: seq<string>, accept: string -> bool, parse: string -> Option<T>): (r: Option<T>)
    ensures r.Some? ==> exists k | 0 <= k < |fixtures| :: accept(fixtures[k]) && parse(fixtures[k]) == r
    decreases |fixtures|
  {
    if |fixtures| == 0 then None
    else if accept(fixtures[0]) && parse(fixtures[0]).Some? then parse(fixtures[0])
    else
      var r := FirstParsed(fixtures[1..], accept, parse);
      assert forall k | 0 <= k < |fixtures[1..]| :: fixtures[1..][k] == fixtures[k + 1];
      r
  }

  /** An entry the search stops at. */
  predicate Hit<T>(f: string, accept: string -> bool, parse: string -> Option<T>) {
    accept(f) && parse(f).Some?
  }

  /**
   * The search finds something exactly when some entry is admitted and
   * parses, and then what it finds is that entry's parse for the first
   * such entry.
   */
  lemma {:induction false} FirstParsedSpec<T>(fixtures: seq<string>, accept: string -> bool, parse: string -> Option<T>)
    ensures FirstParsed(fixtures, accept, parse).Some? <==> exists k | 0 <= k < |fixtures| :: Hit(fixtures[k], accept, parse)
    ensures FirstParsed(fixtures, accept, parse).Some? ==>
      exists k | 0 <= k < |fixtures| :: Hit(fixtures[k], accept, parse)
        && FirstParsed(fixtures, accept, parse) == parse(fixtures[k])
        && forall j | 0 <= j < k :: !Hit(fixtures[j], accept, parse)
    decreases |fixtures|
  {
    if |fixtures| > 0 {
      var rest := fixtures[1..];
      FirstParsedSpec(rest, accept, parse);
      assert forall k | 1 <= k < |fixtures| :: fixtures[k] == rest[k - 1];
      if !Hit(fixtures[0], accept, parse) && FirstParsed(rest, accept, parse).Some? {
        var k :| 0 <= k < |rest| && Hit(rest[k], accept, parse)
                 && FirstParsed(rest, accept, parse) == parse(rest[k])
                 && forall j | 0 <= j < k :: !Hit(rest[j], accept, parse);
        assert Hit(fixtures[k + 1], accept, parse) && FirstParsed(fixtures, accept, parse) == parse(fixtures[k + 1]);
      }
    }
  }

  /**
   * The timeout a connection fixture uses: the first argument of its
   * marker when the marker has one, else the command-line option, else
   * 10 seconds. None stands for an absent marker or option.
   */
  function FixtureTimeout(markerArgs: Option<seq<real>>, option: Option<real>): (t: real)
    ensures (markerArgs.Some? && |markerArgs.value| > 0 && t == markerArgs.value[0]) || option == Some(t) || t == DEFAULT_TIMEOUT
    ensures option.None? && (markerArgs.None? || |markerArgs.value| == 0) ==> t == DEFAULT_TIMEOUT
  {
    if markerArgs.Some? && |markerArgs.value| > 0 then markerArgs.value[0]
    else if option.Some? then option.value
    else DEFAULT_TIMEOUT
  }

  /**
   * The priority: a marker argument beats any option, an option beats the
   * default, and a marker without arguments counts as no marker.
   */
  lemma TimeoutPriority(t: real, rest: seq<real>, option: Option<real>, o: real)
    ensures FixtureTimeout(Some([t] + rest), option) == t
    ensures FixtureTimeout(None, Some(o)) == o && FixtureTimeout(Some([]), Some(o)) == o
    ensures FixtureTimeout(None, None) == DEFAULT_TIMEOUT && FixtureTimeout(Some([]), None) == DEFAULT_TIMEOUT
  {
  }
}

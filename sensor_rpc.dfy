// The sensor module of the weave RPC sample
// (libs/weave/samples/sensor_rpc/src/sensor_module.c and .h): three method
// handlers running on the module's queue thread. read_sensor takes a
// simulated reading from the uptime clock and folds it into the statistics,
// set_config replaces the configuration and restarts or stops the sampling
// timer, and get_stats copies the statistics out.
//
// The two uptime readings read_sensor takes (one for the value, one for
// the timestamp) are parameters. The counters are uint32_t and wrap; the
// reading is an int32_t.
module SensorRpc {
  import opened Wrappers
  import opened Errno
  import opened Bytes

  const INT32_MAX: int := 0x7FFF_FFFF
  const INT32_MIN: int := -0x8000_0000

  /** struct set_config_request. */
  datatype Config = Config(sampleRateMs: nat, threshold: int, autoSample: bool)

  /** struct get_stats_response. */
  datatype Stats = Stats(totalReads: nat, thresholdEvents: nat, minValue: int, maxValue: int)

  /** struct read_sensor_response. */
  datatype Reading = Reading(value: int, timestamp: nat)

  /** The module's configuration at boot. */
  const DEFAULT_CONFIG: Config := Config(1000, 100, true)

  /** The statistics at boot: no reads, and min/max set so that the first read replaces both. */
  const INITIAL_STATS: Stats := Stats(0, 0, INT32_MAX, INT32_MIN)

  predicate Int32(v: int) {
    INT32_MIN <= v <= INT32_MAX
  }

  predicate StatsOk(s: Stats) {
    s.totalReads < U32_LIMIT && s.thresholdEvents < U32_LIMIT && Int32(s.minValue) && Int32(s.maxValue)
  }

  /** The simulated reading (k_uptime_get_32() / 100) % 200. */
  function SimulatedValue(uptime: nat): (v: int)
    requires uptime < U32_LIMIT
    ensures 0 <= v < 200
  {
    (uptime / 100) % 200
  }

  /** The statistics after one read of `value` under the threshold `threshold`. */
  function Record(s: Stats, threshold: int, value: int): (r: Stats)
    requires StatsOk(s) && Int32(value)
    ensures StatsOk(r)
  {
    var s1 := s.(totalReads := Inc(s.totalReads, 4));
    var s2 := if value < s1.minValue then s1.(minValue := value) else s1;
    var s3 := if value > s2.maxValue then s2.(maxValue := value) else s2;
    if value > threshold then s3.(thresholdEvents := Inc(s.thresholdEvents, 4)) else s3
  }

  /** Reads of `values`, oldest first, under one threshold. */
  function Reads(s: Stats, threshold: int, values: seq<int>): (r: Stats)
    requires StatsOk(s) && forall i | 0 <= i < |values| :: Int32(values[i])
    ensures StatsOk(r)
    decreases |values|
  {
    if |values| == 0 then s else Reads(Record(s, threshold, values[0]), threshold, values[1..])
  }

  /** How many of `values` exceed `threshold`. */
  function CountAbove(values: seq<int>, threshold: int): (n: nat)
    ensures n <= |values|
    decreases |values|
  {
    if |values| == 0 then 0 else (if values[0] > threshold then 1 else 0) + CountAbove(values[1..], threshold)
  }

  // ---- Properties ----

  /**
   * One read counts itself, widens [min, max] to take in the value, and
   * counts a threshold event exactly when the value is above the threshold.
   */
  lemma RecordOne(s: Stats, threshold: int, value: int)
    requires StatsOk(s) && Int32(value)
    ensures var r := Record(s, threshold, value);
      r.totalReads == Inc(s.totalReads, 4)
      && r.minValue <= value && r.minValue <= s.minValue && (r.minValue == value || r.minValue == s.minValue)
      && r.maxValue >= value && r.maxValue >= s.maxValue && (r.maxValue == value || r.maxValue == s.maxValue)
      && (r.thresholdEvents != s.thresholdEvents <==> value > threshold)
      && (value > threshold ==> r.thresholdEvents == Inc(s.thresholdEvents, 4))
  {
  }

  /** A wrapped increment followed by `c` more is `c + 1` more, wrapped. */
  lemma IncThenAdd(v: nat, c: nat)
    requires v < U32_LIMIT
    ensures Trunc(Inc(v, 4) + c, 4) == Trunc(v + 1 + c, 4)
  {
    Pow256Values();
    if v + 1 == U32_LIMIT {
      assert (U32_LIMIT + c) % U32_LIMIT == c % U32_LIMIT;
    }
  }

  /**
   * After a run of reads the statistics cover exactly those reads: both
   * counters have grown by the number of reads and of values above the
   * threshold (modulo 2^32), and [min, max] is the old range widened by
   * every value read.
   */
  lemma {:induction false} ReadsCount(s: Stats, threshold: int, values: seq<int>)
    requires StatsOk(s) && forall i | 0 <= i < |values| :: Int32(values[i])
    ensures var r := Reads(s, threshold, values);
      r.totalReads == Trunc(s.totalReads + |values|, 4)
      && r.thresholdEvents == Trunc(s.thresholdEvents + CountAbove(values, threshold), 4)
      && r.minValue <= s.minValue && r.maxValue >= s.maxValue
      && (forall i | 0 <= i < |values| :: r.minValue <= values[i] <= r.maxValue)
      && (r.minValue == s.minValue || r.minValue in values)
      && (r.maxValue == s.maxValue || r.maxValue in values)
    decreases |values|
  {
    Pow256Values();
    if |values| > 0 {
      var s1 := Record(s, threshold, values[0]);
      RecordOne(s, threshold, values[0]);
      ReadsCount(s1, threshold, values[1..]);
      IncThenAdd(s.totalReads, |values| - 1);
      if values[0] > threshold {
        IncThenAdd(s.thresholdEvents, CountAbove(values[1..], threshold));
      }
      assert forall i | 1 <= i < |values| :: values[i] == values[1..][i - 1];
      assert forall v | v in values[1..] :: v in values;
    }
  }

  /**
   * From the boot statistics, a non-empty run of reads leaves min and max
   * at the smallest and the largest value read.
   */
  lemma ReadsFromBoot(threshold: int, values: seq<int>)
    requires |values| > 0 && forall i | 0 <= i < |values| :: Int32(values[i])
    ensures var r := Reads(INITIAL_STATS, threshold, values);
      r.minValue in values && r.maxValue in values
      && forall i | 0 <= i < |values| :: r.minValue <= values[i] <= r.maxValue
  {
    ReadsCount(INITIAL_STATS, threshold, values);
    var r := Reads(INITIAL_STATS, threshold, values);
    assert r.minValue <= values[0] <= INT32_MAX;
    assert r.maxValue >= values[0] >= INT32_MIN;
  }

  // ---- The module in place ----

  /** struct sensor_context; `timer` is the sampling timer's period while it runs. */
  class SensorModule {
    var config: Config
    var stats: Stats
    var lastValue: int
    var timer: Option<nat>

    constructor ()
      ensures config == DEFAULT_CONFIG && stats == INITIAL_STATS && lastValue == 0 && timer == None
    {
      config, stats, lastValue, timer := DEFAULT_CONFIG, INITIAL_STATS, 0, None;
    }

    /**
     * read_sensor_handler: -EINVAL for a NULL request; otherwise the
     * simulated reading, given back when a response buffer is passed, is
     * recorded in the statistics and kept as the last value.
     */
    method ReadSensor(request: Option<nat>, response: bool, uptime: nat, stamp: nat)
      returns (ret: int, res: Option<Reading>)
      requires StatsOk(stats) && uptime < U32_LIMIT
      modifies this
      ensures StatsOk(stats) && config == old(config) && timer == old(timer)
      ensures request.None? ==> ret == -EINVAL && res == None && stats == old(stats) && lastValue == old(lastValue)
      ensures request.Some? ==>
        ret == 0
        && stats == Record(old(stats), config.threshold, SimulatedValue(uptime))
        && lastValue == SimulatedValue(uptime)
        && res == (if response then Some(Reading(SimulatedValue(uptime), stamp)) else None)
    {
      res := None;
      if request.None? {
        return -EINVAL, None;
      }
      var value := SimulatedValue(uptime);
      if response {
        res := Some(Reading(value, stamp));
      }
      stats := stats.(totalReads := Inc(stats.totalReads, 4));
      if value < stats.minValue {
        stats := stats.(minValue := value);
      }
      if value > stats.maxValue {
        stats := stats.(maxValue := value);
      }
      lastValue := value;
      if value > config.threshold {
        stats := stats.(thresholdEvents := Inc(stats.thresholdEvents, 4));
      }
      ret := 0;
    }

    /**
     * set_config_handler: -EINVAL for a NULL request; otherwise the request
     * becomes the configuration, and the timer runs at its sample rate
     * when auto-sampling is on and is stopped when it is off.
     */
    method SetConfig(request: Option<Config>) returns (ret: int)
      modifies this
      ensures stats == old(stats) && lastValue == old(lastValue)
      ensures request.None? ==> ret == -EINVAL && config == old(config) && timer == old(timer)
      ensures request.Some? ==>
        ret == 0 && config == request.value
        && timer == (if request.value.autoSample then Some(request.value.sampleRateMs) else None)
    {
      if request.None? {
        return -EINVAL;
      }
      config := request.value;
      if config.autoSample {
        timer := Some(config.sampleRateMs);
      } else {
        timer := None;
      }
      ret := 0;
    }

    /** get_stats_handler: 0, with a copy of the statistics when a response buffer is passed. */
    method GetStats(response: bool) returns (ret: int, res: Option<Stats>)
      ensures ret == 0 && res == (if response then Some(stats) else None)
    {
      ret := 0;
      res := if response then Some(stats) else None;
    }
  }
}

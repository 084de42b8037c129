// The validators of the flow basic packet-routing sample
// (flow/samples/basic_packet_routing/src/validator.c): two immediate sinks,
// each filtering on one sensor's packet id, share one handler that checks
// the packet's total length and the bytes of its first fragment against the
// sensor's expected size and fill pattern and counts the packet as
// validated or failed in the sink's context.
//
// The sensor ids SOURCE_ID_SENSOR1/2 are not defined by this sample's own
// sensors.h; they are taken as 1 and 2, the values the weave packet-routing
// sample's sensors.h gives them.
module FlowValidator {
  import opened Bytes
  import opened Wrappers
  import NB = NetBuf
  import F = Flow
  import WP = WeavePacket

  type BufId = NB.BufId

  const SOURCE_ID_SENSOR1: nat := 1
  const SOURCE_ID_SENSOR2: nat := 2

  /** What a validator context fixes: its sensor, fill pattern, packet size and the sink it belongs to. */
  datatype Config = Config(sensorId: nat, pattern: byte, size: nat, sink: nat)

  /** The names standing for the addresses of validator1_sink and validator2_sink. */
  const VALIDATOR1_SINK_NAME: nat := 1
  const VALIDATOR2_SINK_NAME: nat := 2

  const SENSOR1: Config := Config(SOURCE_ID_SENSOR1, 0xA1, 256, VALIDATOR1_SINK_NAME)
  const SENSOR2: Config := Config(SOURCE_ID_SENSOR2, 0xB2, 384, VALIDATOR2_SINK_NAME)

  /** The two routed immediate sinks: each takes only its sensor's packet id. */
  const VALIDATOR1_SINK: F.FlowSink := F.FlowSink(VALIDATOR1_SINK_NAME, SOURCE_ID_SENSOR1, F.Immediate, true, None)
  const VALIDATOR2_SINK: F.FlowSink := F.FlowSink(VALIDATOR2_SINK_NAME, SOURCE_ID_SENSOR2, F.Immediate, true, None)

  /** The context's counters: uint32_t validated and failed, and the first_packet flag. */
  datatype Counters = Counters(validated: nat, failed: nat, firstPacket: bool)

  const INITIAL: Counters := Counters(0, 0, true)

  /** Every byte of `data` is the fill pattern. */
  predicate AllPattern(data: seq<byte>, pattern: byte) {
    forall i :: 0 <= i < |data| ==> data[i] == pattern
  }

  predicate CountersFit(c: Counters) {
    c.validated < U32_LIMIT && c.failed < U32_LIMIT
  }

  /** validator_handler on a call from `sink`, for a packet of total length `len` whose first fragment holds `data`. */
  function Step(cfg: Config, c: Counters, sink: nat, len: nat, data: seq<byte>): (r: Counters)
    requires CountersFit(c)
    ensures CountersFit(r)
  {
    if sink != cfg.sink then c
    else if len == cfg.size && AllPattern(data, cfg.pattern) then Counters(Inc(c.validated, 4), c.failed, false)
    else Counters(c.validated, Inc(c.failed, 4), false)
  }

  // ---- Properties ----

  /** A call on a sink other than the context's own returns without touching any counter or the flag. */
  lemma WrongSinkIgnored(cfg: Config, c: Counters, sink: nat, len: nat, data: seq<byte>)
    requires CountersFit(c) && sink != cfg.sink
    ensures Step(cfg, c, sink, len, data) == c
  {
  }

  /**
   * An accepted call counts the packet exactly once: validated goes up when
   * the packet has the expected total length and its first fragment is all
   * pattern bytes, failed goes up otherwise, and first_packet is cleared.
   */
  lemma AcceptedCountsOnce(cfg: Config, c: Counters, len: nat, data: seq<byte>)
    requires CountersFit(c)
    ensures var r := Step(cfg, c, cfg.sink, len, data);
      !r.firstPacket
      && (r.validated == Inc(c.validated, 4) && r.failed == c.failed <==> len == cfg.size && AllPattern(data, cfg.pattern))
      && (r.failed == Inc(c.failed, 4) && r.validated == c.validated <==> !(len == cfg.size && AllPattern(data, cfg.pattern)))
  {
    assert Inc(c.validated, 4) != c.validated && Inc(c.failed, 4) != c.failed;
  }

  /** The number of packets a context has counted, as the counters hold it while neither has wrapped. */
  lemma CountsAddUp(cfg: Config, c: Counters, len: nat, data: seq<byte>)
    requires CountersFit(c) && c.validated + c.failed + 1 < U32_LIMIT
    ensures var r := Step(cfg, c, cfg.sink, len, data);
      r.validated + r.failed == c.validated + c.failed + 1
  {
  }

  /**
   * What the sensors send passes: a sensor's packet of its expected size
   * filled with its pattern in one fragment is validated, and one byte off
   * fails it.
   */
  lemma SensorPacketsValidate(cfg: Config, c: Counters, k: nat, b: byte)
    requires CountersFit(c) && (cfg == SENSOR1 || cfg == SENSOR2)
    requires k < cfg.size && b != cfg.pattern
    ensures var full := seq(cfg.size, _ => cfg.pattern);
      Step(cfg, c, cfg.sink, cfg.size, full).validated == Inc(c.validated, 4)
      && Step(cfg, c, cfg.sink, cfg.size, full[k := b]).failed == Inc(c.failed, 4)
  {
    var full := seq(cfg.size, _ => cfg.pattern);
    assert full[k := b][k] != cfg.pattern;
  }

  /**
   * Routing to the validators: a buffer with a full metadata record,
   * stamped with a sensor's id, passes that sensor's validator filter and is
   * refused by the other's.
   */
  lemma StampRoutes(h: NB.Heap, p: BufId, id: nat)
    requires NB.Valid(h) && p in h.bufs && |h.bufs[p].userData| >= WP.META_SIZE
    requires id == SOURCE_ID_SENSOR1 || id == SOURCE_ID_SENSOR2
    ensures var h1 := F.PacketIdSet(h, Some(p), id).1;
      p in h1.bufs
      && (!F.Filtered(h1, VALIDATOR1_SINK, p) <==> id == SOURCE_ID_SENSOR1)
      && (!F.Filtered(h1, VALIDATOR2_SINK, p) <==> id == SOURCE_ID_SENSOR2)
  {
    F.PacketIdRoundTrip(h, p, id);
  }

  // ---- The context in place ----

  /** struct validator_ctx: its fixed configuration and its counters. */
  class ValidatorCtx {
    const cfg: Config
    var validated: nat
    var failed: nat
    var firstPacket: bool

    constructor (cfg: Config)
      ensures this.cfg == cfg && validated == 0 && failed == 0 && firstPacket
    {
      this.cfg := cfg;
      validated := 0;
      failed := 0;
      firstPacket := true;
    }

    function Counts(): Counters
      reads this
    {
      Counters(validated, failed, firstPacket)
    }

    /**
     * validator_handler on a buffer given to `sink`: the length is the whole
     * chain's, and the byte loop stops at the first byte of the first
     * fragment that is not the pattern.
     */
    method Handle(sink: F.FlowSink, h: NB.Heap, b: BufId)
      requires NB.Valid(h) && b in h.bufs && CountersFit(Counts())
      modifies this
      ensures CountersFit(Counts())
      ensures Counts() == Step(cfg, old(Counts()), sink.name, NB.FragsLen(h, b), h.bufs[b].data)
    {
      var dataLen := NB.FragsLen(h, b);
      if sink.name != cfg.sink {
        return;
      }
      if firstPacket {
        firstPacket := false;
      }
      var valid := true;
      if dataLen != cfg.size {
        valid := false;
      }
      var data := h.bufs[b].data;
      var i := 0;
      while i < |data|
        invariant 0 <= i <= |data|
        invariant forall j :: 0 <= j < i ==> data[j] == cfg.pattern
        invariant valid == (dataLen == cfg.size)
      {
        if data[i] != cfg.pattern {
          valid := false;
          break;
        }
        i := i + 1;
      }
      assert valid <==> dataLen == cfg.size && AllPattern(data, cfg.pattern);
      if valid {
        validated := Inc(validated, 4);
      } else {
        failed := Inc(failed, 4);
      }
    }
  }
}

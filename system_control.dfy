// The system-control module of the swift_io router sample
// (swift_io/samples/router_sample/src/modules/system_control.c and .h): an
// immediate sink that answers a 3-byte ping command (command 0x01 and a
// little-endian 16-bit sequence number) with a 7-byte response from a pool
// of its own. The response echoes the command and the sequence number and
// carries the uptime in milliseconds cut to 32 bits. It is sent with the
// consuming send, and an atomic counter counts the pings answered.
//
// The swift_io send is modelled by the Flow engine's consuming send, as
// in SwiftProcessor. The uptime is a parameter.
module SystemControl {
  import opened Bytes
  import opened Wrappers
  import NB = NetBuf
  import F = Flow

  type BufId = NB.BufId

  const PING_CMD: byte := 0x01

  /** sizeof(struct ping_cmd) and sizeof(struct ping_resp), both packed. */
  const PING_CMD_SIZE: nat := 3
  const PING_RESP_SIZE: nat := 7

  /** sys_control_pool: 4 buffers of 32 bytes with 4 bytes of user data. */
  const POOL_COUNT: nat := 4
  const POOL_DATA_SIZE: nat := 32
  const POOL_USER_DATA: nat := 4

  /** struct ping_resp. */
  datatype PingResp = PingResp(command: byte, seqNum: nat, timestamp: nat)

  predicate RespFits(r: PingResp) {
    r.seqNum < U16_LIMIT && r.timestamp < U32_LIMIT
  }

  /** A ping command as the router test packs it: the command byte, then the sequence number. */
  function EncodeCmd(command: byte, seqNum: nat): (r: seq<byte>)
    requires seqNum < U16_LIMIT
    ensures |r| == PING_CMD_SIZE && r[0] == command
  {
    Pow256Values();
    [command] + EncodeLE(seqNum, 2)
  }

  function EncodeResp(r: PingResp): (bytes: seq<byte>)
    requires RespFits(r)
    ensures |bytes| == PING_RESP_SIZE && bytes[0] == r.command
  {
    Pow256Values();
    [r.command] + EncodeLE(r.seqNum, 2) + EncodeLE(r.timestamp, 4)
  }

  /** How the router test unpacks a response's first seven bytes. */
  function DecodeResp(bytes: seq<byte>): (r: PingResp)
    requires |bytes| >= PING_RESP_SIZE
    ensures RespFits(r) && r.command == bytes[0]
  {
    Pow256Values();
    PingResp(bytes[0], ReadLE(bytes, 1, 2), ReadLE(bytes, 3, 4))
  }

  /**
   * The response a command payload calls for at uptime `ticks`: none for a
   * payload shorter than struct ping_cmd or one whose command is not
   * PING_CMD.
   */
  function Reply(data: seq<byte>, ticks: nat): (r: Option<PingResp>)
    ensures r.Some? <==> |data| >= PING_CMD_SIZE && data[0] == PING_CMD
    ensures r.Some? ==> RespFits(r.value) && r.value.command == PING_CMD
  {
    Pow256Values();
    if |data| < PING_CMD_SIZE then None
    else if data[0] != PING_CMD then None
    else Some(PingResp(PING_CMD, ReadLE(data, 1, 2), Trunc(ticks, 4)))
  }

  /**
   * system_control_cmd_handler on the buffer at `b`, with ping_count at
   * `count`: a command that calls for no response, or an exhausted
   * response pool, changes nothing. Otherwise the counter goes up and a
   * new buffer holding the response is sent and given up to the source.
   */
  function Handle(st: F.FlowState, count: nat, conns: seq<F.Conn>, b: BufId, stale: seq<byte>,
                  exhausted: bool, ticks: nat): (r: (F.FlowState, nat))
    requires F.Good(st) && b in st.heap.bufs && F.AllWired(st, conns) && count < U32_LIMIT
    ensures F.Good(r.0) && r.1 < U32_LIMIT
  {
    Pow256Values();
    var rep := Reply(st.heap.bufs[b].data, ticks);
    if rep.None? || exhausted then (st, count)
    else
      var al := NB.Alloc(st.heap, stale);
      var h2 := NB.Append(al.0, al.1, EncodeResp(rep.value));
      (F.Send(st.(heap := h2), Some(conns), Some(al.1)).1, Inc(count, 4))
  }

  // ---- Properties ----

  /** Decoding an encoded response gives it back. */
  lemma RespRoundTrip(r: PingResp)
    requires RespFits(r)
    ensures DecodeResp(EncodeResp(r)) == r
  {
    Pow256Values();
    var w := EncodeResp(r);
    assert w[1..3] == EncodeLE(r.seqNum, 2);
    assert w[3..7] == EncodeLE(r.timestamp, 4);
    DecodeEncodeLE(r.seqNum, 2);
    DecodeEncodeLE(r.timestamp, 4);
  }

  /**
   * A ping, whatever follows its three bytes, is answered with PING_CMD,
   * the same sequence number and the uptime cut to 32 bits; any other
   * command byte gets no answer.
   */
  lemma PingEchoes(command: byte, seqNum: nat, rest: seq<byte>, ticks: nat)
    requires seqNum < U16_LIMIT
    ensures var rep := Reply(EncodeCmd(command, seqNum) + rest, ticks);
      (command != PING_CMD ==> rep.None?)
      && (command == PING_CMD ==> rep == Some(PingResp(PING_CMD, seqNum, Trunc(ticks, 4))))
  {
    Pow256Values();
    var w := EncodeCmd(command, seqNum) + rest;
    assert w[1..3] == EncodeLE(seqNum, 2);
    DecodeEncodeLE(seqNum, 2);
  }

  /**
   * What the handler does with a buffer: nothing when no response is called
   * for or none can be allocated. Otherwise ping_count goes up by exactly
   * one and the source is given a fresh single buffer whose data is the
   * encoded response.
   */
  lemma HandleOutcome(st: F.FlowState, count: nat, conns: seq<F.Conn>, b: BufId, stale: seq<byte>,
                      exhausted: bool, ticks: nat)
    requires F.Good(st) && b in st.heap.bufs && F.AllWired(st, conns) && count < U32_LIMIT
    ensures var r := Handle(st, count, conns, b, stale, exhausted, ticks);
      var rep := Reply(st.heap.bufs[b].data, ticks);
      (rep.None? || exhausted ==> r == (st, count))
      && (rep.Some? && !exhausted ==>
            var al := NB.Alloc(st.heap, stale);
            var h2 := NB.Append(al.0, al.1, EncodeResp(rep.value));
            r.1 == Inc(count, 4)
            && r.0 == F.Send(st.(heap := h2), Some(conns), Some(al.1)).1
            && al.1 !in st.heap.bufs
            && h2.bufs[al.1] == NB.Buf(EncodeResp(rep.value), 1, None, stale))
  {
    var rep := Reply(st.heap.bufs[b].data, ticks);
    if rep.Some? && !exhausted {
      var al := NB.Alloc(st.heap, stale);
      assert [] + EncodeResp(rep.value) == EncodeResp(rep.value);
    }
  }

  /**
   * With sinks that run at once, the handler leaves every buffer as it
   * found it: the consuming send frees the response once every sink has
   * seen it.
   */
  lemma HandleBalanced(st: F.FlowState, count: nat, conns: seq<F.Conn>, b: BufId, stale: seq<byte>,
                       exhausted: bool, ticks: nat)
    requires F.Good(st) && b in st.heap.bufs && F.AllWired(st, conns) && F.AllImmediate(conns) && count < U32_LIMIT
    ensures var r := Handle(st, count, conns, b, stale, exhausted, ticks).0;
      r.heap.bufs == st.heap.bufs && r.heap.fault == st.heap.fault && r.queues == st.queues
  {
    var rep := Reply(st.heap.bufs[b].data, ticks);
    if rep.Some? && !exhausted {
      var al := NB.Alloc(st.heap, stale);
      var h2 := NB.Append(al.0, al.1, EncodeResp(rep.value));
      F.SendFromImmediate(st.(heap := h2), conns, al.1);
      assert h2.bufs[al.1].ref == 1 && h2.bufs[al.1].frag.None?;
      assert h2.bufs - {al.1} == st.heap.bufs;
    }
  }

  /** The router test's exchange: the ping 0x01 with sequence number 0x1234 is answered with 0x01 and 0x1234. */
  lemma RouterTestPing(ticks: nat)
    ensures var rep := Reply([0x01, 0x34, 0x12], ticks);
      rep.Some? && DecodeResp(EncodeResp(rep.value)).command == PING_CMD
      && DecodeResp(EncodeResp(rep.value)).seqNum == 0x1234
  {
    PingEchoes(PING_CMD, 0x1234, [], ticks);
    Pow256Values();
    assert EncodeCmd(PING_CMD, 0x1234) + [] == [0x01, 0x34, 0x12];
    RespRoundTrip(Reply([0x01, 0x34, 0x12], ticks).value);
  }

  // ---- The module in place ----

  /** The module: the engine, system_control_source, and ping_count. */
  class SystemControl {
    const engine: F.FlowEngine
    const source: F.FlowSource
    var pingCount: nat

    constructor (engine: F.FlowEngine, source: F.FlowSource)
      ensures this.engine == engine && this.source == source && pingCount == 0
    {
      this.engine := engine;
      this.source := source;
      pingCount := 0;
    }

    /** system_control_cmd_handler on the buffer at `b`, the uptime being `ticks`. */
    method Handler(b: BufId, stale: seq<byte>, exhausted: bool, ticks: nat)
      requires F.Good(engine.st) && b in engine.st.heap.bufs && F.AllWired(engine.st, source.connections)
      requires pingCount < U32_LIMIT
      modifies this, engine, source
      ensures source.connections == old(source.connections) && F.Good(engine.st) && pingCount < U32_LIMIT
      ensures (engine.st, pingCount) == Handle(old(engine.st), old(pingCount), old(source.connections), b, stale, exhausted, ticks)
    {
      Pow256Values();
      var data := engine.st.heap.bufs[b].data;
      if |data| < PING_CMD_SIZE {
        return;
      }
      if data[0] != PING_CMD {
        return;
      }
      if exhausted {
        return;
      }
      var al := NB.Alloc(engine.st.heap, stale);
      engine.st := engine.st.(heap := al.0);
      pingCount := Inc(pingCount, 4);
      var resp := PingResp(PING_CMD, ReadLE(data, 1, 2), Trunc(ticks, 4));
      engine.st := engine.st.(heap := NB.Append(engine.st.heap, al.1, EncodeResp(resp)));
      var ret := engine.SourceSend(source, Some(al.1));
    }
  }
}

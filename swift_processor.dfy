// The packet processor of the swift_io basic packet-routing sample
// (swift_io/samples/basic_packet_routing/src/processor.c): a queued sink
// whose handler puts a 12-byte header (packet_defs.h) in a buffer of its own
// pool in front of each sensor packet, stamps it with the next value of a
// 16-bit sequence counter, and sends the chain from the processor's source.
//
// The swift_io delivery engine (swift_io.c) is not part of this model. Its
// header documents the same reference rules as flow's engine: a handler
// borrows its buffer and the framework releases it after the handler;
// swift_io_source_send does not consume the caller's reference and every sink
// takes its own; swift_io_source_send_consume does consume it. The Flow
// model's non-consuming and consuming sends stand for those two calls.
//
// HandleAsWritten follows the source; the processor class uses Handle.
module SwiftProcessor {
  import opened Bytes
  import opened Wrappers
  import NB = NetBuf
  import F = Flow
  import PD = PacketDefs

  type BufId = NB.BufId

  /** processor_pool: 16 header buffers of 12 bytes, each with 4 bytes of user data. */
  const POOL_COUNT: nat := 16
  const POOL_USER_DATA: nat := 4

  /** processor_queue holds 10 events. */
  const QUEUE_SIZE: nat := 10

  /** The first-byte convention: 0 for an empty buffer, 1 when it starts with 0xA0, 2 otherwise. */
  function SourceId(data: seq<byte>): (id: byte)
    ensures id == 0 <==> |data| == 0
    ensures |data| > 0 ==> (id == 1 <==> data[0] == 0xA0) && (id == 1 || id == 2)
  {
    if |data| > 0 then (if data[0] == 0xA0 then 1 else 2) else 0
  }

  /**
   * The header processor_handler writes for a buffer whose first fragment
   * holds `data`: the source id, type DATA, the current sequence value,
   * the uptime cut to 32 bits, the first fragment's length cut to uint16_t,
   * and reserved 0.
   */
  function HeaderFor(data: seq<byte>, sequence: nat, ticks: nat): (hdr: PD.Header)
    requires sequence < U16_LIMIT
    ensures PD.Fits(hdr) && hdr.sourceId == SourceId(data) && hdr.packetType == PD.PACKET_TYPE_DATA
    ensures hdr.sequence == sequence && hdr.reserved == 0
    ensures |data| < U16_LIMIT ==> hdr.contentLength == |data|
  {
    Pow256Values();
    PD.Header(SourceId(data), PD.PACKET_TYPE_DATA, sequence, Trunc(ticks, 4), Trunc(|data|, 2), 0)
  }

  /**
   * processor_handler as written, on the sensor buffer `b` it borrows, with
   * the counter at `sequence`: an exhausted header pool changes nothing, not
   * even the counter. Otherwise the header chain is sent through
   * swift_io_source_send, which leaves the handler's reference to the
   * header buffer with the handler, and the handler never releases it.
   */
  function HandleAsWritten(st: F.FlowState, sequence: nat, conns: seq<F.Conn>, b: BufId, stale: seq<byte>,
                           exhausted: bool, ticks: nat): (r: (F.FlowState, nat))
    requires F.Good(st) && b in st.heap.bufs && F.AllWired(st, conns) && sequence < U16_LIMIT
    ensures F.Good(r.0) && r.1 < U16_LIMIT
  {
    Pow256Values();
    if exhausted then (st, sequence)
    else
      var al := NB.Alloc(st.heap, stale);
      var hdr := HeaderFor(al.0.bufs[b].data, sequence, ticks);
      var h3 := NB.Prepend(al.0, al.1, b, PD.Encode(hdr));
      (F.SendRef(st.(heap := h3), Some(conns), Some(al.1)).1, Inc(sequence, 2))
  }

  /** The handler as intended: the header chain is sent with swift_io_source_send_consume. */
  function Handle(st: F.FlowState, sequence: nat, conns: seq<F.Conn>, b: BufId, stale: seq<byte>,
                  exhausted: bool, ticks: nat): (r: (F.FlowState, nat))
    requires F.Good(st) && b in st.heap.bufs && F.AllWired(st, conns) && sequence < U16_LIMIT
    ensures F.Good(r.0) && r.1 < U16_LIMIT
  {
    Pow256Values();
    if exhausted then (st, sequence)
    else
      var al := NB.Alloc(st.heap, stale);
      var hdr := HeaderFor(al.0.bufs[b].data, sequence, ticks);
      var h3 := NB.Prepend(al.0, al.1, b, PD.Encode(hdr));
      (F.Send(st.(heap := h3), Some(conns), Some(al.1)).1, Inc(sequence, 2))
  }

  /** Allocating the header buffer leaves the payload's chain as it was. */
  lemma AllocKeepsPayload(h: NB.Heap, b: BufId, stale: seq<byte>)
    requires NB.Valid(h) && b in h.bufs
    ensures var al := NB.Alloc(h, stale);
      b < al.1 && al.0.bufs[b] == h.bufs[b] && NB.FragData(al.0, b) == NB.FragData(h, b)
  {
    var al := NB.Alloc(h, stale);
    assert NB.SameLinks(h, al.0, b);
    NB.FragDataSame(h, al.0, b);
  }

  /**
   * With no header buffer, nothing is forwarded and the counter stays.
   * Otherwise the packet takes the current sequence value and the counter
   * moves on by one (wrapping at 16 bits), and the source is given a new
   * header buffer whose chain is the header for the buffer and then the
   * buffer's own chain.
   */
  lemma HandleOutcome(st: F.FlowState, sequence: nat, conns: seq<F.Conn>, b: BufId, stale: seq<byte>,
                      exhausted: bool, ticks: nat)
    requires F.Good(st) && b in st.heap.bufs && F.AllWired(st, conns) && sequence < U16_LIMIT
    ensures var r := Handle(st, sequence, conns, b, stale, exhausted, ticks);
      (exhausted ==> r == (st, sequence))
      && (!exhausted ==>
            var al := NB.Alloc(st.heap, stale);
            var hdr := HeaderFor(st.heap.bufs[b].data, sequence, ticks);
            var h3 := NB.Prepend(al.0, al.1, b, PD.Encode(hdr));
            al.1 == st.heap.next
            && r == (F.Send(st.(heap := h3), Some(conns), Some(al.1)).1, Inc(sequence, 2))
            && NB.FragData(h3, al.1) == [PD.Encode(hdr)] + NB.FragData(st.heap, b))
  {
    if !exhausted {
      var al := NB.Alloc(st.heap, stale);
      AllocKeepsPayload(st.heap, b, stale);
      var hdr := HeaderFor(st.heap.bufs[b].data, sequence, ticks);
      NB.ChainedData(al.0, al.1, b, PD.Encode(hdr));
    }
  }

  /**
   * With connections that run their handlers at once, the corrected
   * handler leaves every buffer as it found it: the consuming send frees
   * the header buffer, which gives back the reference it took on the
   * payload.
   */
  lemma HandleBalanced(st: F.FlowState, sequence: nat, conns: seq<F.Conn>, b: BufId, stale: seq<byte>,
                       exhausted: bool, ticks: nat)
    requires F.Good(st) && b in st.heap.bufs && F.AllWired(st, conns) && F.AllImmediate(conns) && sequence < U16_LIMIT
    ensures var r := Handle(st, sequence, conns, b, stale, exhausted, ticks).0;
      r.heap.bufs == st.heap.bufs && r.heap.fault == st.heap.fault && r.queues == st.queues
  {
    if !exhausted {
      var al := NB.Alloc(st.heap, stale);
      AllocKeepsPayload(st.heap, b, stale);
      var bytes := PD.Encode(HeaderFor(st.heap.bufs[b].data, sequence, ticks));
      var h3 := NB.Prepend(al.0, al.1, b, bytes);
      NB.ChainedRelease(al.0, al.1, b, bytes);
      F.SendFromImmediate(st.(heap := h3), conns, al.1);
      assert al.0.bufs - {al.1} == st.heap.bufs;
    }
  }

  /** With sinks that run at once, the as-written handler's heap is the prepended chain with every send balanced out. */
  lemma HandleAsWrittenHeap(st: F.FlowState, sequence: nat, conns: seq<F.Conn>, b: BufId, stale: seq<byte>, ticks: nat)
    requires F.Good(st) && b in st.heap.bufs && F.AllWired(st, conns) && F.AllImmediate(conns) && sequence < U16_LIMIT
    ensures var al := NB.Alloc(st.heap, stale);
      b < al.1
      && HandleAsWritten(st, sequence, conns, b, stale, false, ticks).0.heap
         == NB.Prepend(al.0, al.1, b, PD.Encode(HeaderFor(st.heap.bufs[b].data, sequence, ticks)))
  {
    var al := NB.Alloc(st.heap, stale);
    AllocKeepsPayload(st.heap, b, stale);
    var hdr := HeaderFor(st.heap.bufs[b].data, sequence, ticks);
    var h3 := NB.Prepend(al.0, al.1, b, PD.Encode(hdr));
    assert HandleAsWritten(st, sequence, conns, b, stale, false, ticks).0 == F.SendFrom(st.(heap := h3), conns, al.1).1;
    F.SendFromImmediate(st.(heap := h3), conns, al.1);
  }

  /**
   * The case that shows the leak: a packet sent to sinks that run at once.
   * As written, the handler returns with the header buffer still live with
   * its one reference and still holding a reference to the payload, so the
   * payload outlives the framework's release of it; every such packet takes
   * one of the pool's 16 header buffers for good.
   */
  lemma HandleAsWrittenLeaks(st: F.FlowState, sequence: nat, conns: seq<F.Conn>, b: BufId, stale: seq<byte>, ticks: nat)
    requires F.Good(st) && b in st.heap.bufs && F.AllWired(st, conns) && F.AllImmediate(conns) && sequence < U16_LIMIT
    ensures var r := HandleAsWritten(st, sequence, conns, b, stale, false, ticks).0;
      var hd := st.heap.next;
      var hdr := HeaderFor(st.heap.bufs[b].data, sequence, ticks);
      hd !in st.heap.bufs
      && r.heap.bufs == st.heap.bufs[b := st.heap.bufs[b].(ref := st.heap.bufs[b].ref + 1)]
                                    [hd := NB.Buf(PD.Encode(hdr), 1, Some(b), stale)]
      && b in NB.Unref(r.heap, b).bufs
  {
    HandleAsWrittenHeap(st, sequence, conns, b, stale, ticks);
    var al := NB.Alloc(st.heap, stale);
    var hdr := HeaderFor(st.heap.bufs[b].data, sequence, ticks);
    NB.PrependAlloc(st.heap, b, stale, PD.Encode(hdr));
    NB.UnrefShared(NB.Prepend(al.0, al.1, b, PD.Encode(hdr)), b);
  }

  // ---- The processor in place ----

  /** The processor: the engine holding every buffer and queue, its source, and the static sequence counter. */
  class Processor {
    const engine: F.FlowEngine
    const source: F.FlowSource
    var sequence: nat

    constructor (engine: F.FlowEngine, source: F.FlowSource)
      ensures this.engine == engine && this.source == source && sequence == 0
    {
      this.engine := engine;
      this.source := source;
      sequence := 0;
    }

    /** processor_handler on a sensor buffer, the uptime being `ticks`. */
    method Handler(b: BufId, stale: seq<byte>, exhausted: bool, ticks: nat)
      requires F.Good(engine.st) && b in engine.st.heap.bufs && F.AllWired(engine.st, source.connections)
      requires sequence < U16_LIMIT
      modifies this, engine, source
      ensures source.connections == old(source.connections) && F.Good(engine.st)
      ensures (engine.st, sequence) == Handle(old(engine.st), old(sequence), old(source.connections), b, stale, exhausted, ticks)
    {
      Pow256Values();
      if exhausted {
        return;
      }
      var al := NB.Alloc(engine.st.heap, stale);
      var hd := al.1;
      engine.st := engine.st.(heap := al.0);
      var data := engine.st.heap.bufs[b].data;
      var sourceId: byte := 0;
      if |data| > 0 {
        sourceId := if data[0] == 0xA0 then 1 else 2;
      }
      var hdr := PD.Header(sourceId, PD.PACKET_TYPE_DATA, sequence, Trunc(ticks, 4), Trunc(|data|, 2), 0);
      sequence := Inc(sequence, 2);
      engine.st := engine.st.(heap := NB.Prepend(engine.st.heap, hd, b, PD.Encode(hdr)));
      var ret := engine.SourceSend(source, Some(hd));
    }
  }
}

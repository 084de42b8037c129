// The packet processor of the flow basic packet-routing sample
// (flow/samples/basic_packet_routing/src/processor.c). Its outbound sink
// takes sensor packets, puts a 4-byte header {packet_id, content_length} in
// a buffer of its own pool in front of them and sends the chain to the echo
// server; its inbound sink takes the echoed chains, stamps the payload
// fragment with the header's packet id and sends only that fragment on to
// the validators. Both sinks are queued on the processor's event queue, so
// both handlers run from flow_event_handler, which releases the buffer after
// the handler returns: a handler borrows the buffer it is given.
//
// The functions named AsWritten follow the source; the processor class uses
// the corrected handlers.
module FlowProcessor {
  import opened Bytes
  import opened Errno
  import opened Wrappers
  import NB = NetBuf
  import F = Flow

  type BufId = NB.BufId

  const HEADER_SIZE: nat := 4

  /** processor_pool: 16 header buffers of 4 bytes, each with 4 bytes of user data. */
  const POOL_COUNT: nat := 16
  const POOL_DATA_SIZE: nat := 4
  const POOL_USER_DATA: nat := 4

  /** processor_queue holds 10 events. */
  const QUEUE_SIZE: nat := 10

  /** struct packet_header: packed, both fields little-endian uint16_t. */
  datatype Header = Header(packetId: nat, contentLength: nat)

  predicate HeaderFits(h: Header) {
    h.packetId < U16_LIMIT && h.contentLength < U16_LIMIT
  }

  function EncodeHeader(h: Header): (r: seq<byte>)
    requires HeaderFits(h)
    ensures |r| == HEADER_SIZE
  {
    Pow256Values();
    EncodeLE(h.packetId, 2) + EncodeLE(h.contentLength, 2)
  }

  /** The header a buffer's data starts with. */
  function DecodeHeader(data: seq<byte>): (h: Header)
    requires |data| >= HEADER_SIZE
    ensures HeaderFits(h)
  {
    Pow256Values();
    Header(ReadLE(data, 0, 2), ReadLE(data, 2, 2))
  }

  /** Decoding an encoded header, whatever follows it, gives the header back. */
  lemma HeaderRoundTrip(h: Header, rest: seq<byte>)
    requires HeaderFits(h)
    ensures DecodeHeader(EncodeHeader(h) + rest) == h
  {
    Pow256Values();
    var w := EncodeHeader(h) + rest;
    assert w[0..2] == EncodeLE(h.packetId, 2);
    assert w[2..4] == EncodeLE(h.contentLength, 2);
    DecodeEncodeLE(h.packetId, 2);
    DecodeEncodeLE(h.contentLength, 2);
  }

  /** Encoding the header read from a buffer gives back the four bytes it was read from. */
  lemma HeaderBytesRoundTrip(data: seq<byte>)
    requires |data| >= HEADER_SIZE
    ensures EncodeHeader(DecodeHeader(data)) == data[..HEADER_SIZE]
  {
    Pow256Values();
    EncodeDecodeLE(data[0..2]);
    EncodeDecodeLE(data[2..4]);
  }

  // ---- The outbound handler ----

  /**
   * outbound_handler as written, on the sensor buffer `b` it borrows. An
   * exhausted header pool changes nothing. A buffer whose user data holds
   * no packet id makes the handler return with the header buffer it has
   * just allocated still holding its one reference. Otherwise the header
   * carries the packet id and the whole chain's length cut to uint16_t,
   * taken before chaining, and the header buffer goes to the outbound
   * source through flow_source_send, which consumes the handler's
   * reference to it.
   */
  function OutboundAsWritten(st: F.FlowState, conns: seq<F.Conn>, b: BufId, stale: seq<byte>, exhausted: bool)
    : (r: F.FlowState)
    requires F.Good(st) && b in st.heap.bufs && F.AllWired(st, conns)
    ensures F.Good(r)
  {
    if exhausted then st
    else
      var al := NB.Alloc(st.heap, stale);
      var g := F.PacketIdGet(al.0, Some(b));
      if g.0 != 0 then st.(heap := al.0)
      else
        var hdr := Header(g.1.value, Trunc(NB.FragsLen(al.0, b), 2));
        F.Send(st.(heap := NB.Prepend(al.0, al.1, b, EncodeHeader(hdr))), Some(conns), Some(al.1)).1
  }

  /** The outbound handler as intended: the same, with the header buffer released when there is no packet id. */
  function Outbound(st: F.FlowState, conns: seq<F.Conn>, b: BufId, stale: seq<byte>, exhausted: bool)
    : (r: F.FlowState)
    requires F.Good(st) && b in st.heap.bufs && F.AllWired(st, conns)
    ensures F.Good(r)
  {
    if exhausted then st
    else
      var al := NB.Alloc(st.heap, stale);
      var g := F.PacketIdGet(al.0, Some(b));
      if g.0 != 0 then st.(heap := NB.Unref(al.0, al.1))
      else
        var hdr := Header(g.1.value, Trunc(NB.FragsLen(al.0, b), 2));
        F.Send(st.(heap := NB.Prepend(al.0, al.1, b, EncodeHeader(hdr))), Some(conns), Some(al.1)).1
  }

  /** The header the outbound handler builds for a payload with a packet id. */
  function OutboundHeader(h: NB.Heap, b: BufId): (hdr: Header)
    requires NB.Valid(h) && b in h.bufs && |h.bufs[b].userData| >= 2
    ensures HeaderFits(hdr)
    ensures hdr.packetId == F.PacketIdGet(h, Some(b)).1.value
    ensures NB.FragsLen(h, b) < U16_LIMIT ==> hdr.contentLength == NB.FragsLen(h, b)
  {
    Pow256Values();
    Header(F.PacketIdGet(h, Some(b)).1.value, Trunc(NB.FragsLen(h, b), 2))
  }

  /** Allocating the header buffer leaves the payload's chain, and so its length and id, as they were. */
  lemma AllocKeepsPayload(h: NB.Heap, b: BufId, stale: seq<byte>)
    requires NB.Valid(h) && b in h.bufs
    ensures var al := NB.Alloc(h, stale);
      b < al.1 && NB.FragData(al.0, b) == NB.FragData(h, b) && NB.FragsLen(al.0, b) == NB.FragsLen(h, b)
      && al.0.bufs[b] == h.bufs[b] && F.PacketIdGet(al.0, Some(b)) == F.PacketIdGet(h, Some(b))
  {
    var al := NB.Alloc(h, stale);
    assert NB.SameLinks(h, al.0, b);
    NB.FragDataSame(h, al.0, b);
  }

  /**
   * Outbound on a payload with a packet id: the outbound source is given
   * the new header buffer, whose chain is the header carrying that id and
   * the chain's length and then the payload chain as it was.
   */
  lemma OutboundOutcome(st: F.FlowState, conns: seq<F.Conn>, b: BufId, stale: seq<byte>)
    requires F.Good(st) && b in st.heap.bufs && F.AllWired(st, conns) && |st.heap.bufs[b].userData| >= 2
    ensures var al := NB.Alloc(st.heap, stale);
      var hdr := OutboundHeader(st.heap, b);
      var h3 := NB.Prepend(al.0, al.1, b, EncodeHeader(hdr));
      al.1 == st.heap.next
      && Outbound(st, conns, b, stale, false) == F.Send(st.(heap := h3), Some(conns), Some(al.1)).1
      && NB.FragData(h3, al.1) == [EncodeHeader(hdr)] + NB.FragData(st.heap, b)
  {
    var al := NB.Alloc(st.heap, stale);
    AllocKeepsPayload(st.heap, b, stale);
    var hdr := OutboundHeader(st.heap, b);
    var bytes := EncodeHeader(hdr);
    NB.ChainedData(al.0, al.1, b, bytes);
    assert NB.Prepend(al.0, al.1, b, EncodeHeader(hdr)) == NB.FragAdd(NB.Ref(NB.Append(al.0, al.1, bytes), b), al.1, b);
  }

  /**
   * With outbound connections that run their handlers at once, the
   * corrected handler leaves every buffer as it found it, whatever path it
   * takes: the header buffer is freed, by the consuming send or by the
   * release on the no-id path, and the payload gets back the reference the
   * chain took.
   */
  lemma OutboundBalanced(st: F.FlowState, conns: seq<F.Conn>, b: BufId, stale: seq<byte>, exhausted: bool)
    requires F.Good(st) && b in st.heap.bufs && F.AllWired(st, conns) && F.AllImmediate(conns)
    ensures var r := Outbound(st, conns, b, stale, exhausted);
      r.heap.bufs == st.heap.bufs && r.heap.fault == st.heap.fault && r.queues == st.queues
  {
    if !exhausted {
      var al := NB.Alloc(st.heap, stale);
      AllocKeepsPayload(st.heap, b, stale);
      if |st.heap.bufs[b].userData| < 2 {
        NB.UnrefAlloc(st.heap, stale);
        assert Outbound(st, conns, b, stale, false) == st.(heap := NB.Unref(al.0, al.1));
      } else {
        var h3 := NB.Prepend(al.0, al.1, b, EncodeHeader(OutboundHeader(st.heap, b)));
        assert Outbound(st, conns, b, stale, false) == F.Send(st.(heap := h3), Some(conns), Some(al.1)).1;
        F.SendFromImmediate(st.(heap := h3), conns, al.1);
        PrependedRelease(st.heap, b, stale);
      }
    }
  }

  /** Dropping the one reference of the prepended header frees it and gives the payload its reference back. */
  lemma PrependedRelease(h: NB.Heap, b: BufId, stale: seq<byte>)
    requires NB.Valid(h) && b in h.bufs && |h.bufs[b].userData| >= 2
    ensures var al := NB.Alloc(h, stale);
      var h3 := NB.Prepend(al.0, al.1, b, EncodeHeader(OutboundHeader(h, b)));
      NB.Unref(h3, al.1).bufs == h.bufs && NB.Unref(h3, al.1).fault == h.fault
  {
    var al := NB.Alloc(h, stale);
    AllocKeepsPayload(h, b, stale);
    var bytes := EncodeHeader(OutboundHeader(h, b));
    var h3 := NB.Prepend(al.0, al.1, b, bytes);
    assert h3 == NB.FragAdd(NB.Ref(NB.Append(al.0, al.1, bytes), b), al.1, b);
    NB.ChainedRelease(al.0, al.1, b, bytes);
    assert al.0.bufs - {al.1} == h.bufs;
  }

  /**
   * The case that shows the leak: a payload whose user data has no room
   * for a packet id. As written, the handler returns with a header buffer
   * that holds one reference and that nothing points to; each such packet
   * takes one of the pool's 16 buffers for good.
   */
  lemma OutboundAsWrittenLeaks(st: F.FlowState, conns: seq<F.Conn>, b: BufId, stale: seq<byte>)
    requires F.Good(st) && b in st.heap.bufs && F.AllWired(st, conns) && |st.heap.bufs[b].userData| < 2
    ensures var r := OutboundAsWritten(st, conns, b, stale, false);
      st.heap.next !in st.heap.bufs
      && r.heap.bufs == st.heap.bufs[st.heap.next := NB.Buf([], 1, None, stale)]
      && forall x :: x in r.heap.bufs ==> r.heap.bufs[x].frag != Some(st.heap.next)
  {
  }

  /** The same payload through the corrected handler: the header buffer is freed and nothing else changes. */
  lemma OutboundNoIdReleases(st: F.FlowState, conns: seq<F.Conn>, b: BufId, stale: seq<byte>)
    requires F.Good(st) && b in st.heap.bufs && F.AllWired(st, conns) && |st.heap.bufs[b].userData| < 2
    ensures var r := Outbound(st, conns, b, stale, false);
      r.heap.bufs == st.heap.bufs && r.heap.fault == st.heap.fault
      && r.queues == st.queues && r.handled == st.handled
  {
    NB.UnrefAlloc(st.heap, stale);
  }

  // ---- The inbound handler ----

  /** The heap after the payload fragment of `b` is stamped with the packet id of the header `b` holds. */
  function Stamp(h: NB.Heap, b: BufId): (r: NB.Heap)
    requires NB.Valid(h) && b in h.bufs && NB.FragLive(h, b)
    requires |h.bufs[b].data| >= HEADER_SIZE && h.bufs[b].frag.Some?
    ensures NB.Valid(r) && r.bufs.Keys == h.bufs.Keys
  {
    F.PacketIdSet(h, h.bufs[b].frag, DecodeHeader(h.bufs[b].data).packetId).1
  }

  /**
   * inbound_handler as written, on the echoed chain `b` it borrows: a
   * buffer shorter than the header, or without a payload fragment, is
   * ignored; otherwise the first fragment is stamped with the header's
   * packet id (a failure to stamp is only logged) and sent on by itself
   * through flow_source_send, which releases a reference to it that the
   * handler never took.
   */
  function InboundAsWritten(st: F.FlowState, conns: seq<F.Conn>, b: BufId): (r: F.FlowState)
    requires F.Good(st) && b in st.heap.bufs && NB.FragLive(st.heap, b) && F.AllWired(st, conns)
    ensures F.Good(r)
  {
    var buf := st.heap.bufs[b];
    if |buf.data| < HEADER_SIZE || buf.frag.None? then st
    else F.Send(st.(heap := Stamp(st.heap, b)), Some(conns), buf.frag).1
  }

  /** The inbound handler as intended: the fragment is sent with flow_source_send_ref, which leaves the chain its reference. */
  function Inbound(st: F.FlowState, conns: seq<F.Conn>, b: BufId): (r: F.FlowState)
    requires F.Good(st) && b in st.heap.bufs && NB.FragLive(st.heap, b) && F.AllWired(st, conns)
    ensures F.Good(r)
  {
    var buf := st.heap.bufs[b];
    if |buf.data| < HEADER_SIZE || buf.frag.None? then st
    else F.SendRef(st.(heap := Stamp(st.heap, b)), Some(conns), buf.frag).1
  }

  /**
   * Inbound ignores a buffer shorter than the header and one with no
   * payload fragment. Otherwise only the first fragment goes on: its data,
   * references and links are as they were, and its user data reads back
   * the header's packet id (it is left alone when it has no room for one).
   */
  lemma InboundOutcome(st: F.FlowState, conns: seq<F.Conn>, b: BufId)
    requires F.Good(st) && b in st.heap.bufs && NB.FragLive(st.heap, b) && F.AllWired(st, conns)
    ensures var buf := st.heap.bufs[b];
      var r := Inbound(st, conns, b);
      ((|buf.data| < HEADER_SIZE || buf.frag.None?) ==> r == st)
      && (|buf.data| >= HEADER_SIZE && buf.frag.Some? ==>
            var p := buf.frag.value;
            var h := Stamp(st.heap, b);
            var id := DecodeHeader(buf.data).packetId;
            r == F.SendRef(st.(heap := h), Some(conns), Some(p)).1
            && h.bufs[p] == st.heap.bufs[p].(userData := h.bufs[p].userData)
            && (|st.heap.bufs[p].userData| >= 2 ==> F.PacketIdGet(h, Some(p)) == (0, Some(id)))
            && (|st.heap.bufs[p].userData| < 2 ==> h == st.heap))
  {
    var buf := st.heap.bufs[b];
    if |buf.data| >= HEADER_SIZE && buf.frag.Some? {
      var p := buf.frag.value;
      if |st.heap.bufs[p].userData| >= 2 {
        F.PacketIdRoundTrip(st.heap, p, DecodeHeader(buf.data).packetId);
      }
    }
  }

  /**
   * The header chain the outbound handler builds, echoed back unchanged,
   * is taken apart again by the inbound handler: the payload goes on by
   * itself, and restamping it with its own packet id leaves it as it was.
   */
  lemma OutboundInboundRoundTrip(st: F.FlowState, conns: seq<F.Conn>, back: seq<F.Conn>, b: BufId, stale: seq<byte>)
    requires F.Good(st) && b in st.heap.bufs && F.AllWired(st, conns) && |st.heap.bufs[b].userData| >= 2
    ensures var al := NB.Alloc(st.heap, stale);
      var h3 := NB.Prepend(al.0, al.1, b, EncodeHeader(OutboundHeader(st.heap, b)));
      var echoed := st.(heap := h3);
      F.AllWired(echoed, back) == F.AllWired(st, back)
      && (F.AllWired(st, back) ==>
            NB.FragLive(h3, al.1) && Stamp(h3, al.1) == h3
            && Inbound(echoed, back, al.1) == F.SendRef(echoed, Some(back), Some(b)).1)
  {
    var al := NB.Alloc(st.heap, stale);
    var h3 := NB.Prepend(al.0, al.1, b, EncodeHeader(OutboundHeader(st.heap, b)));
    PrependedStamp(st.heap, b, stale);
    assert st.(heap := h3).(heap := Stamp(h3, al.1)) == st.(heap := h3);
  }

  /**
   * The header prepended to a payload with a packet id leads to that
   * payload, and stamping the payload with the header's id changes nothing.
   */
  lemma PrependedStamp(h: NB.Heap, b: BufId, stale: seq<byte>)
    requires NB.Valid(h) && b in h.bufs && |h.bufs[b].userData| >= 2
    ensures var al := NB.Alloc(h, stale);
      var h3 := NB.Prepend(al.0, al.1, b, EncodeHeader(OutboundHeader(h, b)));
      NB.FragLive(h3, al.1) && |h3.bufs[al.1].data| >= HEADER_SIZE && h3.bufs[al.1].frag == Some(b)
      && Stamp(h3, al.1) == h3
  {
    Pow256Values();
    var al := NB.Alloc(h, stale);
    AllocKeepsPayload(h, b, stale);
    var hdr := OutboundHeader(h, b);
    var h3 := NB.Prepend(al.0, al.1, b, EncodeHeader(hdr));
    assert h3.bufs[al.1].data == EncodeHeader(hdr);
    HeaderRoundTrip(hdr, []);
    assert EncodeHeader(hdr) + [] == EncodeHeader(hdr);
    var ud := h3.bufs[b].userData;
    assert ud == h.bufs[b].userData;
    EncodeDecodeLE(ud[..2]);
    assert EncodeLE(hdr.packetId, 2) + ud[2..] == ud;
    assert h3.bufs[b].(userData := ud) == h3.bufs[b];
    assert h3.bufs[b := h3.bufs[b].(userData := ud)] == h3.bufs;
  }

  /**
   * The two inbound handlers differ by exactly one release of the payload
   * fragment on every forwarded packet.
   */
  lemma InboundExtraRelease(st: F.FlowState, conns: seq<F.Conn>, b: BufId)
    requires F.Good(st) && b in st.heap.bufs && NB.FragLive(st.heap, b) && F.AllWired(st, conns)
    requires |st.heap.bufs[b].data| >= HEADER_SIZE && st.heap.bufs[b].frag.Some?
    ensures var fixed := Inbound(st, conns, b);
      InboundAsWritten(st, conns, b) == fixed.(heap := NB.Unref(fixed.heap, st.heap.bufs[b].frag.value))
  {
  }

  /**
   * The case that shows it: an echoed chain whose payload fragment is held
   * only by the chain, with the chain's one reference held by the queued
   * event, forwarded to validators that run at once. As written, the send
   * frees the payload while the header still points to it, and the release
   * flow_event_handler makes after the handler then releases the freed
   * payload again.
   */
  lemma InboundAsWrittenUseAfterFree(st: F.FlowState, conns: seq<F.Conn>, b: BufId)
    requires F.Good(st) && b in st.heap.bufs && NB.FragLive(st.heap, b) && F.AllWired(st, conns) && F.AllImmediate(conns)
    requires |st.heap.bufs[b].data| >= HEADER_SIZE && st.heap.bufs[b].frag.Some? && st.heap.bufs[b].ref == 1
    requires var p := st.heap.bufs[b].frag.value; st.heap.bufs[p].ref == 1 && st.heap.bufs[p].frag.None?
    ensures var p := st.heap.bufs[b].frag.value;
      var h := InboundAsWritten(st, conns, b).heap;
      b in h.bufs && h.bufs[b].frag == Some(p) && p !in h.bufs && NB.Unref(h, b).fault
  {
    var p := st.heap.bufs[b].frag.value;
    var h1 := Stamp(st.heap, b);
    F.SendFromImmediate(st.(heap := h1), conns, p);
    var h2 := NB.Unref(h1, p);
    assert h2.bufs == h1.bufs - {p};
  }

  /** The same chain through the corrected handler: the event's release frees header and payload, each once. */
  lemma InboundReleasedOnce(st: F.FlowState, conns: seq<F.Conn>, b: BufId)
    requires F.Good(st) && b in st.heap.bufs && NB.FragLive(st.heap, b) && F.AllWired(st, conns) && F.AllImmediate(conns)
    requires |st.heap.bufs[b].data| >= HEADER_SIZE && st.heap.bufs[b].frag.Some? && st.heap.bufs[b].ref == 1
    requires var p := st.heap.bufs[b].frag.value; st.heap.bufs[p].ref == 1 && st.heap.bufs[p].frag.None?
    ensures var p := st.heap.bufs[b].frag.value;
      var h := NB.Unref(Inbound(st, conns, b).heap, b);
      h.bufs == st.heap.bufs - {b, p} && h.fault == st.heap.fault
  {
    var p := st.heap.bufs[b].frag.value;
    var h1 := Stamp(st.heap, b);
    F.SendFromImmediate(st.(heap := h1), conns, p);
    var freed := h1.(bufs := h1.bufs - {b});
    assert NB.Unref(h1, b) == NB.Unref(freed, p);
    assert freed.bufs - {p} == st.heap.bufs - {b, p};
  }

  // ---- The processor in place ----

  /** The processor: the flow engine holding every buffer and queue, and its two sources. */
  class Processor {
    const engine: F.FlowEngine
    const outboundSource: F.FlowSource
    const inboundSource: F.FlowSource

    constructor (engine: F.FlowEngine, outboundSource: F.FlowSource, inboundSource: F.FlowSource)
      ensures this.engine == engine && this.outboundSource == outboundSource && this.inboundSource == inboundSource
    {
      this.engine := engine;
      this.outboundSource := outboundSource;
      this.inboundSource := inboundSource;
    }

    /** The outbound sink's handler on a sensor buffer. */
    method OutboundHandler(b: BufId, stale: seq<byte>, exhausted: bool)
      requires F.Good(engine.st) && b in engine.st.heap.bufs && F.AllWired(engine.st, outboundSource.connections)
      modifies engine, outboundSource
      ensures outboundSource.connections == old(outboundSource.connections) && F.Good(engine.st)
      ensures engine.st == Outbound(old(engine.st), old(outboundSource.connections), b, stale, exhausted)
    {
      if exhausted {
        return;
      }
      var al := NB.Alloc(engine.st.heap, stale);
      var hd := al.1;
      engine.st := engine.st.(heap := al.0);
      var g := F.PacketIdGet(engine.st.heap, Some(b));
      if g.0 != 0 {
        engine.st := engine.st.(heap := NB.Unref(engine.st.heap, hd));
        return;
      }
      var hdr := Header(g.1.value, Trunc(NB.FragsLen(engine.st.heap, b), 2));
      engine.st := engine.st.(heap := NB.Prepend(engine.st.heap, hd, b, EncodeHeader(hdr)));
      var ret := engine.SourceSend(outboundSource, Some(hd));
    }

    /** The inbound sink's handler on an echoed chain. */
    method InboundHandler(b: BufId)
      requires F.Good(engine.st) && b in engine.st.heap.bufs && NB.FragLive(engine.st.heap, b)
      requires F.AllWired(engine.st, inboundSource.connections)
      modifies engine, inboundSource
      ensures inboundSource.connections == old(inboundSource.connections) && F.Good(engine.st)
      ensures engine.st == Inbound(old(engine.st), old(inboundSource.connections), b)
    {
      var buf := engine.st.heap.bufs[b];
      if |buf.data| < HEADER_SIZE {
        return;
      }
      if buf.frag.None? {
        return;
      }
      var payload := buf.frag.value;
      var s := F.PacketIdSet(engine.st.heap, Some(payload), DecodeHeader(buf.data).packetId);
      engine.st := engine.st.(heap := s.1);
      var ret := engine.SourceSendRef(inboundSource, Some(payload));
    }
  }
}

// The IoTSense protocol of the flow router sample (iotsense_router.c): a
// 4-byte header {version, packet id, payload length} in front of every
// payload. Inbound, the network sink's handler validates the header, looks
// the packet id up in the router's inbound routes and hands the rest of the
// buffer to the route's sink; outbound, a route's handler puts a header in
// front of an application payload and sends the result to the router's
// network source.
//
// The flow tree's router framework (flow_router.h) declares the same route
// table and counters as packet_router.c; its implementation is not part of
// this model, and its route search is taken to be PacketRouter's.
//
// Both handlers run as flow sink handlers, which borrow the buffer they are
// given: flow_event_handler releases it after the handler returns. The
// functions named AsWritten follow the source, which passes that borrowed
// reference on to consuming calls; the class uses the corrected handlers.
module IotsenseRouter {
  import opened Bytes
  import opened Errno
  import opened Wrappers
  import NB = NetBuf
  import F = Flow
  import PR = PacketRouter
  import RT = RouterTcpTest

  type BufId = NB.BufId

  const VERSION: byte := 0x01
  const HEADER_SIZE: nat := 4
  const PKT_ID_INVALID: nat := 0

  /** iotsense_header_pool: 32 buffers of 64 bytes, each with 4 bytes of user data. */
  const HEADER_POOL_COUNT: nat := 32
  const HEADER_POOL_DATA_SIZE: nat := 64
  const HEADER_POOL_USER_DATA: nat := 4

  /** struct iotsense_header: packed, payload_len little-endian. */
  datatype Header = Header(version: byte, packetId: byte, payloadLen: nat)

  function EncodeHeader(h: Header): (r: seq<byte>)
    requires h.payloadLen < U16_LIMIT
    ensures |r| == HEADER_SIZE && r[0] == h.version && r[1] == h.packetId
  {
    Pow256Values();
    [h.version, h.packetId] + EncodeLE(h.payloadLen, 2)
  }

  /** The header at the front of a buffer's data. */
  function DecodeHeader(data: seq<byte>): (h: Header)
    requires |data| >= HEADER_SIZE
    ensures h.version == data[0] && h.packetId == data[1] && h.payloadLen < U16_LIMIT
  {
    Pow256Values();
    Header(data[0], data[1], ReadLE(data, 2, 2))
  }

  /** Decoding an encoded header, whatever follows it, gives the header back. */
  lemma HeaderRoundTrip(h: Header, rest: seq<byte>)
    requires h.payloadLen < U16_LIMIT
    ensures DecodeHeader(EncodeHeader(h) + rest) == h
  {
    Pow256Values();
    var e := EncodeHeader(h);
    assert (e + rest)[2..4] == EncodeLE(h.payloadLen, 2);
    DecodeEncodeLE(h.payloadLen, 2);
  }

  /** Encoding a decoded header gives back the four bytes it was read from. */
  lemma HeaderBytesRoundTrip(data: seq<byte>)
    requires |data| >= HEADER_SIZE
    ensures EncodeHeader(DecodeHeader(data)) == data[..HEADER_SIZE]
  {
    Pow256Values();
    EncodeDecodeLE(data[2..4]);
  }

  /**
   * iotsense_get_packet_id: PKT_ID_INVALID for a buffer shorter than the
   * header or with another version, otherwise the header's packet id.
   */
  function GetPacketId(data: seq<byte>): (id: nat)
    ensures id < 256
  {
    if |data| < HEADER_SIZE || data[0] != VERSION then PKT_ID_INVALID
    else DecodeHeader(data).packetId
  }

  /**
   * iotsense_validate_header: -EINVAL for a short buffer, -EPROTONOSUPPORT
   * for another version, -EMSGSIZE when the buffer length differs from the
   * header size plus payload_len (that sum is a uint16_t), -EINVAL for the
   * invalid packet id, otherwise 0.
   */
  function ValidateHeader(data: seq<byte>): (r: int)
    ensures r == 0 || r == -EINVAL || r == -EPROTONOSUPPORT || r == -EMSGSIZE
  {
    if |data| < HEADER_SIZE then -EINVAL
    else
      var hdr := DecodeHeader(data);
      if hdr.version != VERSION then -EPROTONOSUPPORT
      else if |data| != Trunc(HEADER_SIZE + hdr.payloadLen, 2) then -EMSGSIZE
      else if hdr.packetId == PKT_ID_INVALID then -EINVAL
      else 0
  }

  /**
   * A header passes validation exactly when the buffer is the header plus
   * payload_len bytes, with the right version and a valid id: the uint16_t
   * wrap of the length sum never lets a wrong length through. A buffer's
   * length is itself a uint16_t.
   */
  lemma ValidateHeaderAccepts(data: seq<byte>)
    requires |data| < U16_LIMIT
    ensures ValidateHeader(data) == 0 <==>
      |data| >= HEADER_SIZE && data[0] == VERSION && data[1] != PKT_ID_INVALID
      && |data| == HEADER_SIZE + DecodeHeader(data).payloadLen
  {
    Pow256Values();
    if |data| >= HEADER_SIZE && data[0] == VERSION {
      var v := HEADER_SIZE + DecodeHeader(data).payloadLen;
      if v >= U16_LIMIT {
        LengthWraps(v);
      }
    }
  }

  /** The checks fail in the source's order: length, version, size, id. */
  lemma ValidateHeaderOrder(data: seq<byte>)
    requires |data| < U16_LIMIT
    ensures |data| < HEADER_SIZE ==> ValidateHeader(data) == -EINVAL
    ensures |data| >= HEADER_SIZE && data[0] != VERSION ==> ValidateHeader(data) == -EPROTONOSUPPORT
    ensures |data| >= HEADER_SIZE && data[0] == VERSION && |data| != HEADER_SIZE + DecodeHeader(data).payloadLen ==>
      ValidateHeader(data) == -EMSGSIZE
    ensures (|data| >= HEADER_SIZE && data[0] == VERSION && |data| == HEADER_SIZE + DecodeHeader(data).payloadLen
      && data[1] == PKT_ID_INVALID) ==>
      ValidateHeader(data) == -EINVAL
  {
    ValidateHeaderAccepts(data);
    Pow256Values();
    if |data| >= HEADER_SIZE && data[0] == VERSION {
      var v := HEADER_SIZE + DecodeHeader(data).payloadLen;
      if v >= U16_LIMIT {
        LengthWraps(v);
      }
    }
  }

  /** A header-plus-payload length past the uint16_t range wraps to less than a header. */
  lemma LengthWraps(v: nat)
    requires U16_LIMIT <= v < U16_LIMIT + U16_LIMIT
    ensures Trunc(v, 2) == v - U16_LIMIT
  {
    Pow256Values();
    var w := v - U16_LIMIT;
    assert v == U16_LIMIT + w;
  }

  /** After a header passes validation its packet id is valid, so the handler's own id check never fails. */
  lemma ValidatedPacketId(data: seq<byte>)
    requires ValidateHeader(data) == 0
    ensures GetPacketId(data) == data[1] && GetPacketId(data) != PKT_ID_INVALID
  {
  }

  /**
   * The bytes the firmware sends for a payload, a header and then the
   * payload, pass its own inbound validation when the packet id is valid,
   * carry the id back, and leave the payload after the header.
   */
  lemma WireRoundTrip(id: byte, payload: seq<byte>)
    requires HEADER_SIZE + |payload| < U16_LIMIT
    ensures var wire := EncodeHeader(Header(VERSION, id, |payload|)) + payload;
      ValidateHeader(wire) == (if id == PKT_ID_INVALID then -EINVAL else 0)
      && GetPacketId(wire) == id && wire[HEADER_SIZE..] == payload
  {
    var wire := EncodeHeader(Header(VERSION, id, |payload|)) + payload;
    HeaderRoundTrip(Header(VERSION, id, |payload|), payload);
    ValidateHeaderAccepts(wire);
    ValidateHeaderOrder(wire);
  }

  /**
   * The test client's packing of a packet with version 0x01 is the
   * firmware's header followed by the payload, so the firmware accepts what
   * the test client sends exactly when the packet id is valid.
   */
  lemma ClientPacketAccepted(p: RT.IoTSensePacket)
    requires RT.WellFormed(p) && p.version == VERSION && HEADER_SIZE + |p.payload| < U16_LIMIT
    ensures RT.Pack(p).Ok?
    ensures RT.Pack(p).value == EncodeHeader(Header(VERSION, p.packetId, |p.payload|)) + p.payload
    ensures ValidateHeader(RT.Pack(p).value) == (if p.packetId == PKT_ID_INVALID then -EINVAL else 0)
  {
    Pow256Values();
    var w := RT.Pack(p).value;
    var e := EncodeHeader(Header(VERSION, p.packetId, |p.payload|));
    assert w[..HEADER_SIZE] == e by {
      HeaderBytesRoundTrip(w);
      HeaderRoundTrip(Header(VERSION, p.packetId, |p.payload|), p.payload);
      assert DecodeHeader(w) == Header(VERSION, p.packetId, |p.payload|);
    }
    assert w == w[..HEADER_SIZE] + w[HEADER_SIZE..];
    WireRoundTrip(p.packetId, p.payload);
  }

  // ---- The header builder ----

  /**
   * iotsense_add_header: NULL (None) when the header pool has no free
   * buffer; otherwise a fresh header buffer holding version 0x01, the packet
   * id cut to uint8_t and the payload's own length (0 without a payload),
   * with the payload linked after it. Linking does not take a reference:
   * the header takes over the one the caller passes in.
   */
  function AddHeader(h: NB.Heap, payload: Option<BufId>, packetId: nat, stale: seq<byte>, exhausted: bool)
    : (r: (NB.Heap, Option<BufId>))
    requires NB.Valid(h) && (payload.Some? ==> payload.value in h.bufs)
    ensures NB.Valid(r.0) && r.0.fault == h.fault
    ensures r.1.None? <==> exhausted
    ensures exhausted ==> r.0 == h
    ensures r.1.Some? ==> (r.1.value == h.next && r.0.bufs.Keys == h.bufs.Keys + {h.next}
      && r.0.bufs[h.next].ref == 1
      && forall x :: x in h.bufs ==> r.0.bufs[x].ref == h.bufs[x].ref && r.0.bufs[x].data == h.bufs[x].data)
  {
    if exhausted then (h, None)
    else
      Pow256Values();
      var a := NB.Alloc(h, stale);
      var hd := a.1;
      var len := if payload.Some? then |h.bufs[payload.value].data| else 0;
      var h2 := NB.Append(a.0, hd, EncodeHeader(Header(VERSION, Trunc(packetId, 1), Trunc(len, 2))));
      if payload.None? then (h2, Some(hd))
      else
        assert NB.FragLast(h2, hd) == hd;
        (NB.FragAdd(h2, hd, payload.value), Some(hd))
  }

  /** The header buffer's chain: the header bytes, then the payload chain as it was. */
  lemma AddHeaderChain(h: NB.Heap, payload: BufId, packetId: nat, stale: seq<byte>)
    requires NB.Valid(h) && payload in h.bufs
    ensures var r := AddHeader(h, Some(payload), packetId, stale, false);
      var len := |h.bufs[payload].data|;
      len < U16_LIMIT ==>
        NB.FragData(r.0, r.1.value)
          == [EncodeHeader(Header(VERSION, Trunc(packetId, 1), len))] + NB.FragData(h, payload)
  {
    Pow256Values();
    var a := NB.Alloc(h, stale);
    var len := |h.bufs[payload].data|;
    var bytes := EncodeHeader(Header(VERSION, Trunc(packetId, 1), Trunc(len, 2)));
    NB.LinkedData(a.0, a.1, payload, bytes);
    assert NB.FragData(a.0, payload) == NB.FragData(h, payload) by {
      assert NB.SameLinks(h, a.0, payload);
      NB.FragDataSame(h, a.0, payload);
    }
  }

  /**
   * Sent as one packet, the chain of a header built for a single payload
   * buffer is accepted by the inbound validation when the id is valid, and
   * gives back the id and the payload.
   */
  lemma AddHeaderWire(h: NB.Heap, payload: BufId, packetId: nat, stale: seq<byte>)
    requires NB.Valid(h) && payload in h.bufs && h.bufs[payload].frag.None?
    requires HEADER_SIZE + |h.bufs[payload].data| < U16_LIMIT
    ensures var r := AddHeader(h, Some(payload), packetId, stale, false);
      var wire := NB.Concat(NB.FragData(r.0, r.1.value));
      var id := Trunc(packetId, 1);
      ValidateHeader(wire) == (if id == PKT_ID_INVALID then -EINVAL else 0)
      && GetPacketId(wire) == id && wire[HEADER_SIZE..] == h.bufs[payload].data
  {
    Pow256Values();
    var data := h.bufs[payload].data;
    AddHeaderChain(h, payload, packetId, stale);
    var r := AddHeader(h, Some(payload), packetId, stale, false);
    var e := EncodeHeader(Header(VERSION, Trunc(packetId, 1), |data|));
    assert NB.FragData(h, payload) == [data];
    assert NB.Concat([e] + [data]) == e + data by {
      assert ([e] + [data])[1..] == [data];
      assert NB.Concat([data]) == data + NB.Concat([]);
    }
    WireRoundTrip(Trunc(packetId, 1), data);
  }

  /**
   * A payload of several buffers gets a payload_len that counts only the
   * first one, so its wire form fails the inbound size check.
   */
  lemma AddHeaderFirstFragmentOnly(h: NB.Heap, payload: BufId, packetId: nat, stale: seq<byte>)
    requires NB.Valid(h) && payload in h.bufs
    requires HEADER_SIZE + NB.FragsLen(h, payload) < U16_LIMIT
    requires NB.FragsLen(h, payload) != |h.bufs[payload].data|
    ensures var r := AddHeader(h, Some(payload), packetId, stale, false);
      ValidateHeader(NB.Concat(NB.FragData(r.0, r.1.value))) == -EMSGSIZE
  {
    Pow256Values();
    var data := h.bufs[payload].data;
    assert |data| <= NB.FragsLen(h, payload) by {
      assert NB.FragData(h, payload)[0] == data;
      assert NB.Concat(NB.FragData(h, payload)) == data + NB.Concat(NB.FragData(h, payload)[1..]);
    }
    AddHeaderChain(h, payload, packetId, stale);
    var r := AddHeader(h, Some(payload), packetId, stale, false);
    var e := EncodeHeader(Header(VERSION, Trunc(packetId, 1), |data|));
    var fs := [e] + NB.FragData(h, payload);
    assert fs[1..] == NB.FragData(h, payload);
    var wire := NB.Concat(fs);
    assert wire == e + NB.Concat(NB.FragData(h, payload));
    HeaderRoundTrip(Header(VERSION, Trunc(packetId, 1), |data|), NB.Concat(NB.FragData(h, payload)));
    ValidateHeaderAccepts(wire);
    ValidateHeaderOrder(wire);
  }

  // ---- The handlers ----

  /** Every inbound route leads to a known sink whose queue, if any, exists. */
  predicate RoutesReady(st: F.FlowState, routes: seq<PR.Route>, sinks: map<nat, F.FlowSink>) {
    forall i :: 0 <= i < |routes| ==> routes[i].endpoint in sinks && F.Wired(st, Some(sinks[routes[i].endpoint]))
  }

  /**
   * The inbound handler's decision on a buffer with data `data`: a parse
   * error, an unknown packet id, or the position of the route to use.
   */
  datatype Verdict = ParseError | UnknownId | Routed(route: nat)

  function Classify(data: seq<byte>, routes: seq<PR.Route>): (v: Verdict)
    ensures v.Routed? ==> v.route < |routes|
  {
    if |data| < HEADER_SIZE || ValidateHeader(data) < 0 then ParseError
    else
      var id := GetPacketId(data);
      if id == PKT_ID_INVALID then ParseError
      else
        match PR.First(routes, PR.ById(id))
        case None => UnknownId
        case Some(k) => Routed(k)
  }

  /**
   * Three checks, one decision: a buffer is a parse error exactly when its
   * header fails validation, and otherwise it goes to the first route for
   * its packet id.
   */
  lemma ClassifyExact(data: seq<byte>, routes: seq<PR.Route>)
    ensures Classify(data, routes) == ParseError <==> ValidateHeader(data) != 0
    ensures ValidateHeader(data) == 0 ==>
      match PR.First(routes, PR.ById(data[1]))
      case None => Classify(data, routes) == UnknownId
      case Some(k) => Classify(data, routes) == Routed(k)
  {
    if ValidateHeader(data) == 0 {
      Pow256Values();
      ValidateHeaderAccepts(data);
      ValidatedPacketId(data);
    }
  }

  /** The counter a verdict bumps. */
  function Count(stats: PR.Stats, v: Verdict): PR.Stats {
    match v
    case ParseError => stats.(parseErrors := stats.parseErrors + 1)
    case UnknownId => stats.(unknownIds := stats.unknownIds + 1)
    case Routed(_) => stats.(inbound := stats.inbound + 1)
  }

  /**
   * iotsense_network_inbound_handler as written: a routed buffer loses its
   * header and goes to the route's sink through flow_sink_deliver_consume,
   * which releases a reference after the delivery; inbound_packets counts
   * it whatever the delivery returns.
   */
  function InboundAsWritten(st: F.FlowState, stats: PR.Stats, routes: seq<PR.Route>, sinks: map<nat, F.FlowSink>, b: BufId)
    : (r: (F.FlowState, PR.Stats))
    requires F.Good(st) && b in st.heap.bufs && RoutesReady(st, routes, sinks)
    ensures F.Good(r.0)
  {
    var data := st.heap.bufs[b].data;
    var v := Classify(data, routes);
    if !v.Routed? then (st, Count(stats, v))
    else
      var st1 := st.(heap := NB.Pull(st.heap, b, HEADER_SIZE));
      var d := F.Deliver(st1, Some(sinks[routes[v.route].endpoint]), Some(b));
      (d.1, Count(stats, v))
  }

  /**
   * The inbound handler as intended: the same, with the borrowed buffer
   * handed on by flow_sink_deliver_ref, which leaves the handler's caller
   * the reference it lent.
   */
  function Inbound(st: F.FlowState, stats: PR.Stats, routes: seq<PR.Route>, sinks: map<nat, F.FlowSink>, b: BufId)
    : (r: (F.FlowState, PR.Stats))
    requires F.Good(st) && b in st.heap.bufs && RoutesReady(st, routes, sinks)
    ensures F.Good(r.0)
  {
    var data := st.heap.bufs[b].data;
    var v := Classify(data, routes);
    if !v.Routed? then (st, Count(stats, v))
    else
      var st1 := st.(heap := NB.Pull(st.heap, b, HEADER_SIZE));
      var d := F.DeliverRef(st1, Some(sinks[routes[v.route].endpoint]), Some(b));
      (d.1, Count(stats, v))
  }

  /**
   * Inbound accounting: exactly one counter goes up by one. A parse error or
   * an unknown id changes nothing else; a routed buffer has exactly its
   * four header bytes stripped and what remains is what the route's sink is
   * given.
   */
  lemma InboundOutcome(st: F.FlowState, stats: PR.Stats, routes: seq<PR.Route>, sinks: map<nat, F.FlowSink>, b: BufId)
    requires F.Good(st) && b in st.heap.bufs && RoutesReady(st, routes, sinks)
    ensures var data := st.heap.bufs[b].data;
      var r := Inbound(st, stats, routes, sinks, b);
      (ValidateHeader(data) != 0 ==> r == (st, stats.(parseErrors := stats.parseErrors + 1)))
      && (ValidateHeader(data) == 0 && PR.First(routes, PR.ById(data[1])).None? ==>
            r == (st, stats.(unknownIds := stats.unknownIds + 1)))
      && (ValidateHeader(data) == 0 && PR.First(routes, PR.ById(data[1])).Some? ==>
            var k := PR.First(routes, PR.ById(data[1])).value;
            var st1 := st.(heap := NB.Pull(st.heap, b, HEADER_SIZE));
            r.1 == stats.(inbound := stats.inbound + 1)
            && st1.heap.bufs[b].data == data[HEADER_SIZE..]
            && |st1.heap.bufs[b].data| == DecodeHeader(data).payloadLen
            && r.0 == F.DeliverRef(st1, Some(sinks[routes[k].endpoint]), Some(b)).1)
  {
    var data := st.heap.bufs[b].data;
    ClassifyExact(data, routes);
    if ValidateHeader(data) == 0 {
      Pow256Values();
      ValidateHeaderAccepts(data);
    }
  }

  /** An immediate route sink runs its handler on the payload, and every reference count is as it was. */
  lemma InboundImmediate(st: F.FlowState, stats: PR.Stats, routes: seq<PR.Route>, sinks: map<nat, F.FlowSink>, b: BufId)
    requires F.Good(st) && b in st.heap.bufs && RoutesReady(st, routes, sinks)
    requires Classify(st.heap.bufs[b].data, routes).Routed?
    requires var s := sinks[routes[Classify(st.heap.bufs[b].data, routes).route].endpoint];
      s.hasHandler && s.mode == F.Immediate && s.acceptId == F.PACKET_ID_ANY
    ensures var r := Inbound(st, stats, routes, sinks, b);
      var s := sinks[routes[Classify(st.heap.bufs[b].data, routes).route].endpoint];
      var h1 := NB.Pull(st.heap, b, HEADER_SIZE);
      r.0.heap == h1 && r.0.queues == st.queues
      && r.0.handled == st.handled + [F.Handled(s.name, NB.Snapshot(h1, b))]
      && NB.Snapshot(h1, b).frags[0] == st.heap.bufs[b].data[HEADER_SIZE..]
  {
    var s := sinks[routes[Classify(st.heap.bufs[b].data, routes).route].endpoint];
    var st1 := st.(heap := NB.Pull(st.heap, b, HEADER_SIZE));
    F.DeliverRefImmediate(st1, s, b);
  }

  /** The two inbound handlers differ by exactly one release of the borrowed buffer on every routed packet. */
  lemma InboundExtraRelease(st: F.FlowState, stats: PR.Stats, routes: seq<PR.Route>, sinks: map<nat, F.FlowSink>, b: BufId)
    requires F.Good(st) && b in st.heap.bufs && RoutesReady(st, routes, sinks)
    requires Classify(st.heap.bufs[b].data, routes).Routed?
    ensures var fixed := Inbound(st, stats, routes, sinks, b);
      InboundAsWritten(st, stats, routes, sinks, b) == (fixed.0.(heap := NB.Unref(fixed.0.heap, b)), fixed.1)
  {
  }

  /**
   * The case that shows it: a buffer from the TCP server's pool (one
   * reference of the server, one taken when the network sink was given it)
   * routed to an immediate sink. As written, the release flow_event_handler
   * makes after the handler frees the buffer, and the server's consuming
   * send then releases a buffer that is gone.
   */
  lemma InboundAsWrittenDoubleRelease(st: F.FlowState, stats: PR.Stats, routes: seq<PR.Route>, sinks: map<nat, F.FlowSink>, b: BufId)
    requires F.Good(st) && b in st.heap.bufs && RoutesReady(st, routes, sinks)
    requires st.heap.bufs[b].ref == 2 && st.heap.bufs[b].frag.None?
    requires Classify(st.heap.bufs[b].data, routes).Routed?
    requires var s := sinks[routes[Classify(st.heap.bufs[b].data, routes).route].endpoint];
      s.hasHandler && s.mode == F.Immediate && s.acceptId == F.PACKET_ID_ANY
    ensures var h := InboundAsWritten(st, stats, routes, sinks, b).0.heap;
      var afterHandler := NB.Unref(h, b);
      b in h.bufs && b !in afterHandler.bufs && NB.Unref(afterHandler, b).fault
  {
    InboundImmediate(st, stats, routes, sinks, b);
    InboundExtraRelease(st, stats, routes, sinks, b);
  }

  /** The same buffer through the corrected handler is freed by the server's release, exactly once. */
  lemma InboundReleasedOnce(st: F.FlowState, stats: PR.Stats, routes: seq<PR.Route>, sinks: map<nat, F.FlowSink>, b: BufId)
    requires F.Good(st) && b in st.heap.bufs && RoutesReady(st, routes, sinks)
    requires st.heap.bufs[b].ref == 2 && st.heap.bufs[b].frag.None?
    requires Classify(st.heap.bufs[b].data, routes).Routed?
    requires var s := sinks[routes[Classify(st.heap.bufs[b].data, routes).route].endpoint];
      s.hasHandler && s.mode == F.Immediate && s.acceptId == F.PACKET_ID_ANY
    ensures var h := Inbound(st, stats, routes, sinks, b).0.heap;
      var afterHandler := NB.Unref(h, b);
      b in afterHandler.bufs && NB.Unref(afterHandler, b).bufs == st.heap.bufs - {b}
      && NB.Unref(afterHandler, b).fault == st.heap.fault
  {
    InboundImmediate(st, stats, routes, sinks, b);
    var h1 := NB.Pull(st.heap, b, HEADER_SIZE);
    NB.UnrefShared(h1, b);
    var h2 := NB.Unref(h1, b);
    assert h2.bufs - {b} == st.heap.bufs - {b};
  }

  /**
   * iotsense_network_outbound_handler as written, on the payload its route's
   * sink was given: with no header buffer, buffer_errors goes up and the
   * payload is released; otherwise the header chain goes to the network
   * source through flow_source_send_consume and outbound_packets goes up,
   * whatever the send returns.
   */
  function OutboundAsWritten(st: F.FlowState, stats: PR.Stats, net: seq<F.Conn>, payload: BufId, packetId: nat,
                             stale: seq<byte>, exhausted: bool): (r: (F.FlowState, PR.Stats))
    requires F.Good(st) && payload in st.heap.bufs && F.AllWired(st, net)
    ensures F.Good(r.0)
  {
    var a := AddHeader(st.heap, Some(payload), packetId, stale, exhausted);
    if a.1.None? then (st.(heap := NB.Unref(st.heap, payload)), stats.(bufferErrors := stats.bufferErrors + 1))
    else
      var s := F.Send(st.(heap := a.0), Some(net), a.1);
      (s.1, stats.(outbound := stats.outbound + 1))
  }

  /**
   * The outbound handler as intended: the header chain takes a reference of
   * its own on the payload, so the borrowed one stays with the caller, and
   * an allocation failure releases nothing.
   */
  function Outbound(st: F.FlowState, stats: PR.Stats, net: seq<F.Conn>, payload: BufId, packetId: nat,
                    stale: seq<byte>, exhausted: bool): (r: (F.FlowState, PR.Stats))
    requires F.Good(st) && payload in st.heap.bufs && F.AllWired(st, net)
    ensures F.Good(r.0)
  {
    if exhausted then (st, stats.(bufferErrors := stats.bufferErrors + 1))
    else
      var a := AddHeader(NB.Ref(st.heap, payload), Some(payload), packetId, stale, false);
      var s := F.Send(st.(heap := a.0), Some(net), a.1);
      (s.1, stats.(outbound := stats.outbound + 1))
  }

  /**
   * Outbound accounting: an exhausted header pool bumps buffer_errors and
   * changes nothing else; otherwise outbound_packets goes up and the
   * network source is given the header buffer, whose chain is the header
   * for the payload's first fragment followed by the payload.
   */
  lemma OutboundOutcome(st: F.FlowState, stats: PR.Stats, net: seq<F.Conn>, payload: BufId, packetId: nat,
                        stale: seq<byte>, exhausted: bool)
    requires F.Good(st) && payload in st.heap.bufs && F.AllWired(st, net)
    requires |st.heap.bufs[payload].data| < U16_LIMIT
    ensures var r := Outbound(st, stats, net, payload, packetId, stale, exhausted);
      (exhausted ==> r == (st, stats.(bufferErrors := stats.bufferErrors + 1)))
      && (!exhausted ==>
            var a := AddHeader(NB.Ref(st.heap, payload), Some(payload), packetId, stale, false);
            r.1 == stats.(outbound := stats.outbound + 1)
            && r.0 == F.Send(st.(heap := a.0), Some(net), a.1).1
            && NB.FragData(a.0, a.1.value)
               == [EncodeHeader(Header(VERSION, Trunc(packetId, 1), |st.heap.bufs[payload].data|))]
                  + NB.FragData(st.heap, payload))
  {
    if !exhausted {
      RefThenHeader(st.heap, payload, packetId, stale);
    }
  }

  /** The header chain built over a payload that has just taken one more reference. */
  lemma RefThenHeader(h: NB.Heap, payload: BufId, packetId: nat, stale: seq<byte>)
    requires NB.Valid(h) && payload in h.bufs && |h.bufs[payload].data| < U16_LIMIT
    ensures var a := AddHeader(NB.Ref(h, payload), Some(payload), packetId, stale, false);
      NB.FragData(a.0, a.1.value)
      == [EncodeHeader(Header(VERSION, Trunc(packetId, 1), |h.bufs[payload].data|))] + NB.FragData(h, payload)
  {
    var h0 := NB.Ref(h, payload);
    assert payload in h0.bufs && h0.bufs[payload].data == h.bufs[payload].data;
    AddHeaderChain(h0, payload, packetId, stale);
    NB.FragDataSame(h, h0, payload);
  }

  /**
   * A header built for a payload that holds more than one reference, sent
   * through a consuming send to sinks that queue nothing: the header is
   * freed and the payload has lost one reference.
   */
  lemma HeaderSentAndFreed(st: F.FlowState, net: seq<F.Conn>, payload: BufId, packetId: nat, stale: seq<byte>)
    requires F.Good(st) && payload in st.heap.bufs && F.AllWired(st, net) && F.AllImmediate(net)
    requires st.heap.bufs[payload].ref > 1
    ensures var a := AddHeader(st.heap, Some(payload), packetId, stale, false);
      var r := F.Send(st.(heap := a.0), Some(net), a.1).1;
      r.heap.bufs == st.heap.bufs[payload := st.heap.bufs[payload].(ref := st.heap.bufs[payload].ref - 1)]
      && r.heap.fault == st.heap.fault && r.queues == st.queues
  {
    var a := AddHeader(st.heap, Some(payload), packetId, stale, false);
    F.SendFromImmediate(st.(heap := a.0), net, a.1.value);
    HeaderUnref(st.heap, payload, packetId, stale);
  }

  /** Dropping the one reference of a fresh header buffer frees it and drops one reference of its payload. */
  lemma HeaderUnref(h: NB.Heap, payload: BufId, packetId: nat, stale: seq<byte>)
    requires NB.Valid(h) && payload in h.bufs && h.bufs[payload].ref > 1
    ensures var a := AddHeader(h, Some(payload), packetId, stale, false);
      var u := NB.Unref(a.0, a.1.value);
      u.bufs == h.bufs[payload := h.bufs[payload].(ref := h.bufs[payload].ref - 1)] && u.fault == h.fault
  {
    var al := NB.Alloc(h, stale);
    var hd := al.1;
    var bytes := AddHeaderUnfold(h, payload, packetId, stale);
    NB.HeadRelease(al.0, hd, payload, bytes);
    var freed := al.0.(bufs := al.0.bufs - {hd});
    assert freed.bufs == h.bufs;
    NB.UnrefShared(freed, payload);
  }

  /** AddHeader over a payload: a fresh buffer holding the header bytes, chained to the payload. */
  lemma AddHeaderUnfold(h: NB.Heap, payload: BufId, packetId: nat, stale: seq<byte>) returns (bytes: seq<byte>)
    requires NB.Valid(h) && payload in h.bufs
    ensures var al := NB.Alloc(h, stale);
      AddHeader(h, Some(payload), packetId, stale, false) == (NB.FragAdd(NB.Append(al.0, al.1, bytes), al.1, payload), Some(al.1))
  {
    Pow256Values();
    bytes := EncodeHeader(Header(VERSION, Trunc(packetId, 1), Trunc(|h.bufs[payload].data|, 2)));
  }

  /**
   * When the network sinks run at once and queue nothing, the corrected
   * handler leaves every buffer as it found it: the header is freed by the
   * consuming send and gives back the reference it took on the payload.
   */
  lemma OutboundBalanced(st: F.FlowState, stats: PR.Stats, net: seq<F.Conn>, payload: BufId, packetId: nat,
                         stale: seq<byte>, exhausted: bool)
    requires F.Good(st) && payload in st.heap.bufs && F.AllWired(st, net) && F.AllImmediate(net)
    ensures var r := Outbound(st, stats, net, payload, packetId, stale, exhausted);
      r.0.heap.bufs == st.heap.bufs && r.0.heap.fault == st.heap.fault && r.0.queues == st.queues
  {
    if !exhausted {
      var h0 := NB.Ref(st.heap, payload);
      var a := AddHeader(h0, Some(payload), packetId, stale, false);
      F.SendFromImmediate(st.(heap := a.0), net, a.1.value);
      HeaderUnref(h0, payload, packetId, stale);
      NB.RefDrop(st.heap, payload);
    }
  }

  /** The outbound handler as written releases the borrowed payload reference, with or without a header buffer. */
  lemma OutboundAsWrittenReleases(st: F.FlowState, stats: PR.Stats, net: seq<F.Conn>, payload: BufId, packetId: nat,
                                  stale: seq<byte>, exhausted: bool)
    requires F.Good(st) && payload in st.heap.bufs && F.AllWired(st, net) && F.AllImmediate(net)
    requires st.heap.bufs[payload].ref > 1
    ensures var r := OutboundAsWritten(st, stats, net, payload, packetId, stale, exhausted);
      r.0.heap.bufs == st.heap.bufs[payload := st.heap.bufs[payload].(ref := st.heap.bufs[payload].ref - 1)]
      && r.0.heap.fault == st.heap.fault
  {
    if exhausted {
      NB.UnrefShared(st.heap, payload);
    } else {
      HeaderSentAndFreed(st, net, payload, packetId, stale);
    }
  }

  /**
   * The case that shows it: a sensor buffer (the sensor's reference and the
   * one the route's handler sink took) sent to a network source with no
   * connections. As written, the buffer is freed by the release
   * flow_event_handler makes after the handler, and the sensor's own
   * release in flow_source_send then meets a freed buffer.
   */
  lemma OutboundAsWrittenDoubleRelease(st: F.FlowState, stats: PR.Stats, payload: BufId, packetId: nat,
                                       stale: seq<byte>, exhausted: bool)
    requires F.Good(st) && payload in st.heap.bufs
    requires st.heap.bufs[payload].ref == 2 && st.heap.bufs[payload].frag.None?
    ensures var h := OutboundAsWritten(st, stats, [], payload, packetId, stale, exhausted).0.heap;
      var afterHandler := NB.Unref(h, payload);
      payload in h.bufs && payload !in afterHandler.bufs && NB.Unref(afterHandler, payload).fault
  {
    OutboundAsWrittenReleases(st, stats, [], payload, packetId, stale, exhausted);
  }

  /** The same sensor buffer through the corrected handler is freed by the sensor's release, exactly once. */
  lemma OutboundReleasedOnce(st: F.FlowState, stats: PR.Stats, payload: BufId, packetId: nat,
                             stale: seq<byte>, exhausted: bool)
    requires F.Good(st) && payload in st.heap.bufs
    requires st.heap.bufs[payload].ref == 2 && st.heap.bufs[payload].frag.None?
    ensures var h := Outbound(st, stats, [], payload, packetId, stale, exhausted).0.heap;
      var afterHandler := NB.Unref(h, payload);
      payload in afterHandler.bufs && NB.Unref(afterHandler, payload).bufs == st.heap.bufs - {payload}
      && NB.Unref(afterHandler, payload).fault == st.heap.fault
  {
    OutboundBalanced(st, stats, [], payload, packetId, stale, exhausted);
    var h := Outbound(st, stats, [], payload, packetId, stale, exhausted).0.heap;
    NB.UnrefShared(h, payload);
    var h2 := NB.Unref(h, payload);
    assert h2.bufs - {payload} == st.heap.bufs - {payload};
  }

  // ---- The router in place ----

  /**
   * The IoTSense router: its route table and counters, the flow engine
   * holding every buffer and queue, the router's network source, and the
   * flow sink each route's sink address names.
   */
  class Iotsense {
    const router: PR.Router
    const engine: F.FlowEngine
    const network: F.FlowSource
    const sinks: map<nat, F.FlowSink>

    constructor (router: PR.Router, engine: F.FlowEngine, network: F.FlowSource, sinks: map<nat, F.FlowSink>)
      ensures this.router == router && this.engine == engine && this.network == network && this.sinks == sinks
    {
      this.router := router;
      this.engine := engine;
      this.network := network;
      this.sinks := sinks;
    }

    /** The network sink's handler on a buffer it was given. */
    method InboundHandler(b: BufId)
      requires F.Good(engine.st) && b in engine.st.heap.bufs && RoutesReady(engine.st, router.inbound, sinks)
      modifies engine, router
      ensures router.inbound == old(router.inbound) && router.outbound == old(router.outbound)
      ensures F.Good(engine.st)
      ensures (engine.st, router.stats) == Inbound(old(engine.st), old(router.stats), old(router.inbound), sinks, b)
    {
      var data := engine.st.heap.bufs[b].data;
      if |data| < HEADER_SIZE {
        router.stats := router.stats.(parseErrors := router.stats.parseErrors + 1);
        return;
      }
      if ValidateHeader(data) < 0 {
        router.stats := router.stats.(parseErrors := router.stats.parseErrors + 1);
        return;
      }
      var id := GetPacketId(data);
      if id == PKT_ID_INVALID {
        // The validation above has already turned away the invalid id, so
        // the handler's own check of it never fires.
        assert false;
      }
      var k := router.FindInbound(id);
      if k.None? {
        router.stats := router.stats.(unknownIds := router.stats.unknownIds + 1);
        return;
      }
      var sink := sinks[router.inbound[k.value].endpoint];
      engine.st := engine.st.(heap := NB.Pull(engine.st.heap, b, HEADER_SIZE));
      var ret := engine.SinkDeliverRef(Some(sink), Some(b));
      router.stats := router.stats.(inbound := router.stats.inbound + 1);
    }

    /** A route's outbound handler on the payload its handler sink was given. */
    method OutboundHandler(payload: BufId, packetId: nat, stale: seq<byte>, exhausted: bool)
      requires F.Good(engine.st) && payload in engine.st.heap.bufs && F.AllWired(engine.st, network.connections)
      modifies engine, router, network
      ensures router.inbound == old(router.inbound) && router.outbound == old(router.outbound)
      ensures network.connections == old(network.connections) && F.Good(engine.st)
      ensures (engine.st, router.stats)
        == Outbound(old(engine.st), old(router.stats), old(network.connections), payload, packetId, stale, exhausted)
    {
      if exhausted {
        router.stats := router.stats.(bufferErrors := router.stats.bufferErrors + 1);
        return;
      }
      var a := AddHeader(NB.Ref(engine.st.heap, payload), Some(payload), packetId, stale, false);
      engine.st := engine.st.(heap := a.0);
      var ret := engine.SourceSend(network, a.1);
      router.stats := router.stats.(outbound := router.stats.outbound + 1);
    }
  }
}

// The flow fan-out engine (flow.c): sinks that run their handler at once or
// queue an event, sources that deliver one buffer to every connected sink,
// and the event queues drained by worker threads. Every sink holds its own
// reference to the buffer for as long as it has it.
//
// The buffer metadata header (flow_buf.h) is not part of this model. The
// record is taken to have the same 8-byte layout as weave's packet metadata
// (u8 packet id, u8 flags, u16 counter, u32 ticks), which matches the uint8_t
// id that flow_sink_deliver_ref reads into. Handlers are opaque: a handler
// call is recorded as the sink's name and what the buffer holds at that point
// (handlers must not release the buffer).
module Flow {
  import opened Bytes
  import opened Wrappers
  import opened Errno
  import NB = NetBuf
  import WP = WeavePacket

  type BufId = NB.BufId

  /** FLOW_PACKET_ID_ANY, the accept_id of a sink that takes every packet. */
  const PACKET_ID_ANY: nat := 0xFFFF

  datatype Mode = Immediate | Queued

  /** A sink: its name (standing for its address), filter, mode, handler presence and message queue. */
  datatype FlowSink = FlowSink(name: nat, acceptId: nat, mode: Mode, hasHandler: bool, msgq: Option<nat>)

  /** struct flow_event: what a queued delivery puts on the sink's queue. */
  datatype FlowEvent = FlowEvent(sink: Option<FlowSink>, buf: Option<BufId>)

  /** A k_msgq of flow events with room for `capacity` of them. */
  datatype MsgQ = MsgQ(items: seq<FlowEvent>, capacity: nat)

  /** One handler call: the sink's name and what its handler was given. */
  datatype Handled = Handled(sink: nat, frame: NB.Frame)

  /** Buffers, queues, the handler calls so far, and the names of the sinks that dropped a packet. */
  datatype FlowState = FlowState(heap: NB.Heap, queues: seq<MsgQ>, handled: seq<Handled>, dropped: seq<nat>)

  /**
   * The identity of a connection's list node: entry `entry` of the static
   * connection section, or slot `slot` of the runtime pool. The two are
   * different objects, so no static node is ever a pool node.
   */
  datatype Node = StaticNode(entry: nat) | PoolNode(slot: nat)

  /** A connection in a source's list: the list node (its identity) and the sink it leads to. */
  datatype Conn = Conn(node: Node, sink: Option<FlowSink>)

  predicate Good(st: FlowState) {
    NB.Valid(st.heap) && forall i :: 0 <= i < |st.queues| ==> |st.queues[i].items| <= st.queues[i].capacity
  }

  /** A sink's queue, when it has one, is one of the engine's queues. */
  predicate Wired(st: FlowState, sink: Option<FlowSink>) {
    sink.Some? && sink.value.msgq.Some? ==> sink.value.msgq.value < |st.queues|
  }

  predicate AllWired(st: FlowState, conns: seq<Conn>) {
    forall i :: 0 <= i < |conns| ==> Wired(st, conns[i].sink)
  }

  /** The number of events waiting on all queues. */
  function TotalQueued(qs: seq<MsgQ>): nat {
    if |qs| == 0 then 0 else |qs[0].items| + TotalQueued(qs[1..])
  }

  lemma {:induction false} TotalQueuedUpdate(qs: seq<MsgQ>, i: nat, q: MsgQ)
    requires i < |qs|
    ensures TotalQueued(qs[i := q]) == TotalQueued(qs) - |qs[i].items| + |q.items|
  {
    if i > 0 {
      assert qs[i := q][1..] == qs[1..][i - 1 := q];
      TotalQueuedUpdate(qs[1..], i - 1, q);
    } else {
      assert qs[i := q][1..] == qs[1..];
    }
  }

  /**
   * The id flow_sink_deliver_ref compares: it starts as FLOW_PACKET_ID_ANY
   * stored in a uint8_t (so 0xFF) and is overwritten by the metadata's id
   * when the buffer has a metadata record.
   */
  function PacketIdOf(h: NB.Heap, b: BufId): (id: nat)
    requires b in h.bufs
    ensures id < 256
  {
    var ud := h.bufs[b].userData;
    if |ud| >= WP.META_SIZE then ud[0] else 0xFF
  }

  /** The packet id filter refuses the buffer. */
  predicate Filtered(h: NB.Heap, s: FlowSink, b: BufId)
    requires b in h.bufs
  {
    s.acceptId != PACKET_ID_ANY && PacketIdOf(h, b) != s.acceptId
  }

  /**
   * flow_packet_id_set: the id goes little-endian into the first two bytes
   * of the buffer's user-data area; a missing buffer or an area shorter
   * than two bytes gives -ENOBUFS and writes nothing.
   */
  function PacketIdSet(h: NB.Heap, buf: Option<BufId>, id: nat): (r: (int, NB.Heap))
    requires NB.Valid(h) && id < U16_LIMIT && (buf.Some? ==> buf.value in h.bufs)
    ensures NB.Valid(r.1) && r.1.next == h.next && r.1.fault == h.fault
    ensures r.0 == 0 || r.0 == -ENOBUFS
    ensures r.0 == 0 <==> buf.Some? && |h.bufs[buf.value].userData| >= 2
    ensures r.0 != 0 ==> r.1 == h
    ensures r.0 == 0 ==> (r.1.bufs.Keys == h.bufs.Keys
      && r.1.bufs[buf.value] == h.bufs[buf.value].(userData := r.1.bufs[buf.value].userData)
      && |r.1.bufs[buf.value].userData| == |h.bufs[buf.value].userData|
      && r.1.bufs[buf.value].userData[2..] == h.bufs[buf.value].userData[2..]
      && forall x :: x in h.bufs && x != buf.value ==> r.1.bufs[x] == h.bufs[x])
  {
    if buf.None? || |h.bufs[buf.value].userData| < 2 then (-ENOBUFS, h)
    else
      Pow256Values();
      var ud := h.bufs[buf.value].userData;
      var ud' := EncodeLE(id, 2) + ud[2..];
      assert ud'[2..] == ud[2..];
      (0, NB.SetUserData(h, buf.value, ud'))
  }

  /**
   * flow_packet_id_get: -EINVAL for a missing buffer, with nothing written
   * (None); -ENOBUFS and FLOW_PACKET_ID_ANY for a user-data area shorter
   * than two bytes; otherwise 0 and the little-endian id stored there.
   */
  function PacketIdGet(h: NB.Heap, buf: Option<BufId>): (r: (int, Option<nat>))
    requires buf.Some? ==> buf.value in h.bufs
    ensures r.0 == 0 || r.0 == -EINVAL || r.0 == -ENOBUFS
    ensures r.0 == -EINVAL <==> buf.None?
    ensures r.0 == -EINVAL <==> r.1.None?
    ensures r.0 == -ENOBUFS ==> r.1 == Some(PACKET_ID_ANY)
    ensures r.0 == 0 <==> buf.Some? && |h.bufs[buf.value].userData| >= 2
    ensures r.0 == 0 ==> r.1.value < U16_LIMIT
  {
    if buf.None? then (-EINVAL, None)
    else
      var ud := h.bufs[buf.value].userData;
      if |ud| < 2 then (-ENOBUFS, Some(PACKET_ID_ANY))
      else
        Pow256Values();
        (0, Some(DecodeLE(ud[..2])))
  }

  /**
   * Reading the id back after a successful set gives the id that was set,
   * and the low byte is the u8 id that flow_sink_deliver_ref's filter reads
   * from a full metadata record.
   */
  lemma PacketIdRoundTrip(h: NB.Heap, b: BufId, id: nat)
    requires NB.Valid(h) && id < U16_LIMIT && b in h.bufs && |h.bufs[b].userData| >= 2
    ensures var s := PacketIdSet(h, Some(b), id);
      s.0 == 0 && PacketIdGet(s.1, Some(b)) == (0, Some(id))
      && (|h.bufs[b].userData| >= WP.META_SIZE ==> PacketIdOf(s.1, b) == id % 256)
  {
    Pow256Values();
    var s := PacketIdSet(h, Some(b), id);
    var ud := s.1.bufs[b].userData;
    assert ud[..2] == EncodeLE(id, 2);
    DecodeEncodeLE(id, 2);
  }

  /**
   * flow_event_handler: run the sink's handler on the buffer and release the
   * reference that came with it. With no sink or no handler the reference is
   * released all the same and -EINVAL returned; a dead buffer (reference
   * count 0) gives -EINVAL and is left alone.
   */
  function EventHandler(st: FlowState, sink: Option<FlowSink>, buf: Option<BufId>): (r: (int, FlowState))
    requires Good(st)
    ensures Good(r.1) && r.1.queues == st.queues && r.1.dropped == st.dropped
  {
    if sink.None? || buf.None? || !sink.value.hasHandler then
      (-EINVAL, if buf.Some? then st.(heap := NB.Unref(st.heap, buf.value)) else st)
    else if buf.value !in st.heap.bufs then (-EINVAL, st)
    else
      var st1 := st.(handled := st.handled + [Handled(sink.value.name, NB.Snapshot(st.heap, buf.value))]);
      (0, st1.(heap := NB.Unref(st1.heap, buf.value)))
  }

  /**
   * flow_sink_deliver_ref: hand a buffer to one sink without consuming the
   * caller's reference. The sink's own reference is taken after the
   * argument and filter checks; an immediate sink's handler runs and releases
   * it, a queued sink keeps it in its queue, and every failure after the
   * reference was taken gives it back. Only K_NO_WAIT puts are modelled, so
   * a full queue is k_msgq_put's -ENOMSG, reported as -ENOBUFS.
   */
  function DeliverRef(st: FlowState, sink: Option<FlowSink>, buf: Option<BufId>): (r: (int, FlowState))
    requires Good(st) && Wired(st, sink) && (buf.Some? ==> buf.value in st.heap.bufs)
    ensures Good(r.1) && |r.1.queues| == |st.queues|
    ensures buf.Some? ==> r.1.heap == st.heap || r.1.heap == NB.Ref(st.heap, buf.value)
  {
    if sink.None? || buf.None? || !sink.value.hasHandler then (-EINVAL, st)
    else
      var s := sink.value;
      var b := buf.value;
      if Filtered(st.heap, s, b) then (-ENOTSUP, st)
      else
        var h1 := NB.Ref(st.heap, b);
        NB.UnrefRef(st.heap, b);
        match s.mode
        case Immediate => EventHandler(st.(heap := h1), sink, buf)
        case Queued =>
          if s.msgq.None? then (-ENOSYS, st.(heap := NB.Unref(h1, b)))
          else
            var q := st.queues[s.msgq.value];
            if |q.items| >= q.capacity then
              (-ENOBUFS, st.(heap := NB.Unref(h1, b), dropped := st.dropped + [s.name]))
            else
              (0, st.(heap := h1, queues := st.queues[s.msgq.value := q.(items := q.items + [FlowEvent(sink, buf)])]))
  }

  /** flow_sink_deliver as flow.c has it: deliver_ref, then the caller's reference is released. */
  function Deliver(st: FlowState, sink: Option<FlowSink>, buf: Option<BufId>): (r: (int, FlowState))
    requires Good(st) && Wired(st, sink) && (buf.Some? ==> buf.value in st.heap.bufs)
    ensures Good(r.1)
  {
    if buf.None? then DeliverRef(st, sink, None)
    else
      var d := DeliverRef(st, sink, buf);
      (d.0, d.1.(heap := NB.Unref(d.1.heap, buf.value)))
  }

  /**
   * The loop of _flow_source_send over the connection list: connections
   * without a sink are skipped, and the result counts the deliveries that
   * returned 0.
   */
  function SendFrom(st: FlowState, conns: seq<Conn>, b: BufId): (r: (nat, FlowState))
    requires Good(st) && b in st.heap.bufs && AllWired(st, conns)
    ensures Good(r.1) && |r.1.queues| == |st.queues| && b in r.1.heap.bufs
    ensures r.0 <= |conns|
    decreases |conns|
  {
    if |conns| == 0 then (0, st)
    else if conns[0].sink.None? then SendFrom(st, conns[1..], b)
    else
      var d := DeliverRef(st, conns[0].sink, Some(b));
      var rest := SendFrom(d.1, conns[1..], b);
      (rest.0 + (if d.0 == 0 then 1 else 0), rest.1)
  }

  /** Some(ret, new state), or None where flow_source_send(_ref) rejects its arguments with -EINVAL. */
  function SendRef(st: FlowState, conns: Option<seq<Conn>>, buf: Option<BufId>): (r: (int, FlowState))
    requires Good(st) && (conns.Some? ==> AllWired(st, conns.value)) && (buf.Some? ==> buf.value in st.heap.bufs)
    ensures Good(r.1)
  {
    if conns.None? || buf.None? then (-EINVAL, st)
    else SendFrom(st, conns.value, buf.value)
  }

  /**
   * flow_source_send as flow.c has it: the non-consuming send, then the
   * caller's reference is released. A dead buffer is refused; `buf` may name
   * a freed buffer here, as the C pointer may.
   */
  function Send(st: FlowState, conns: Option<seq<Conn>>, buf: Option<BufId>): (r: (int, FlowState))
    requires Good(st) && (conns.Some? ==> AllWired(st, conns.value))
    ensures Good(r.1)
  {
    if conns.None? || buf.None? || buf.value !in st.heap.bufs then (-EINVAL, st)
    else
      var s := SendFrom(st, conns.value, buf.value);
      (s.0, s.1.(heap := NB.Unref(s.1.heap, buf.value)))
  }

  /**
   * flow_event_process on queue `q` with K_NO_WAIT: -EAGAIN on an empty
   * queue, otherwise the oldest event is taken off and handled.
   */
  function EventProcess(st: FlowState, q: Option<nat>): (r: (int, FlowState))
    requires Good(st) && (q.Some? ==> q.value < |st.queues|)
    ensures Good(r.1) && |r.1.queues| == |st.queues|
  {
    if q.None? then (-EINVAL, st)
    else
      var queue := st.queues[q.value];
      if |queue.items| == 0 then (-EAGAIN, st)
      else
        var e := queue.items[0];
        var st1 := st.(queues := st.queues[q.value := queue.(items := queue.items[1..])]);
        EventHandler(st1, e.sink, e.buf)
  }

  // ---- Buffer allocation ----

  /** The FLOW_BUF pool behind a flow_buf_pool, with its atomic counter. */
  class FlowBufPool {
    var counter: nat

    constructor ()
      ensures counter == 0
    {
      counter := 0;
    }
  }

  /**
   * flow_buf_alloc: NULL for no pool or an exhausted one; otherwise a fresh
   * buffer whose record holds id ANY (0xFF in the u8 field), flags 0, the
   * counter before the atomic increment cut to 16 bits, and the tick clock.
   */
  function BufAlloc(h: NB.Heap, counter: nat, hasPool: bool, stale: seq<byte>, exhausted: bool, ticks: nat)
    : (r: (Option<BufId>, NB.Heap, nat))
    requires NB.Valid(h) && counter < U32_LIMIT && |stale| >= WP.META_SIZE
    ensures NB.Valid(r.1) && r.2 < U32_LIMIT
    ensures r.0.None? <==> !hasPool || exhausted
    ensures r.0.None? ==> r.1 == h && r.2 == counter
    ensures r.0.Some? ==> (r.0.value == h.next && r.0.value in r.1.bufs && r.1.bufs - {r.0.value} == h.bufs
      && r.1.bufs[r.0.value].ref == 1 && |r.1.bufs[r.0.value].userData| == |stale|)
  {
    if !hasPool || exhausted then (None, h, counter)
    else
      var a := NB.Alloc(h, stale);
      var h1, id := a.0, a.1;
      var m := WP.Meta(0xFF, 0, counter % U16_LIMIT, Trunc(ticks, 4));
      var ud := WP.EncodeMeta(m) + stale[WP.META_SIZE..];
      assert h1.bufs[id := h1.bufs[id].(userData := ud)] - {id} == h.bufs;
      (Some(id), NB.SetUserData(h1, id, ud), (counter + 1) % U32_LIMIT)
  }

  /** flow_buf_alloc_with_id: the same, with the record's id then set. */
  function BufAllocWithId(h: NB.Heap, counter: nat, hasPool: bool, packetId: byte, stale: seq<byte>,
                          exhausted: bool, ticks: nat): (r: (Option<BufId>, NB.Heap, nat))
    requires NB.Valid(h) && counter < U32_LIMIT && |stale| >= WP.META_SIZE
    ensures NB.Valid(r.1) && (r.0.Some? ==> r.0.value in r.1.bufs)
  {
    var a := BufAlloc(h, counter, hasPool, stale, exhausted, ticks);
    if a.0.None? then a
    else
      var ud := a.1.bufs[a.0.value].userData;
      (a.0, NB.SetUserData(a.1, a.0.value, ud[0 := packetId]), a.2)
  }

  // ---- Properties ----

  /**
   * The handler helper: it succeeds exactly for a live buffer and a sink
   * with a handler, and then the handler ran once on the buffer; the
   * reference that came with the buffer is released in every case except a
   * dead buffer.
   */
  lemma EventHandlerReleases(st: FlowState, sink: Option<FlowSink>, b: BufId)
    requires Good(st)
    ensures var r := EventHandler(st, sink, Some(b));
      (r.0 == 0 <==> sink.Some? && sink.value.hasHandler && b in st.heap.bufs)
      && (r.0 != 0 ==> r.0 == -EINVAL && r.1.handled == st.handled)
      && (r.0 == 0 ==> r.1.handled == st.handled + [Handled(sink.value.name, NB.Snapshot(st.heap, b))])
      && (sink.Some? && sink.value.hasHandler && b !in st.heap.bufs ==> r.1 == st)
      && (!(sink.Some? && sink.value.hasHandler && b !in st.heap.bufs) ==> r.1.heap == NB.Unref(st.heap, b))
  {
  }

  /**
   * The rejections of flow_sink_deliver_ref: -EINVAL for no sink, no buffer
   * or no handler, -ENOTSUP for a packet the filter refuses; neither takes a
   * reference or changes anything else.
   */
  lemma DeliverRefRejects(st: FlowState, sink: Option<FlowSink>, buf: Option<BufId>)
    requires Good(st) && Wired(st, sink) && (buf.Some? ==> buf.value in st.heap.bufs)
    ensures var r := DeliverRef(st, sink, buf);
      var bad := sink.None? || buf.None? || !sink.value.hasHandler;
      (r.0 == -EINVAL <==> bad)
      && (r.0 == -ENOTSUP <==> !bad && Filtered(st.heap, sink.value, buf.value))
      && (r.0 == -EINVAL || r.0 == -ENOTSUP ==> r.1 == st)
  {
  }

  /**
   * Immediate delivery: the handler runs once on the buffer as the caller
   * holds it, and the caller's reference count is as before.
   */
  lemma DeliverRefImmediate(st: FlowState, s: FlowSink, b: BufId)
    requires Good(st) && Wired(st, Some(s)) && b in st.heap.bufs
    requires s.hasHandler && !Filtered(st.heap, s, b) && s.mode == Immediate
    ensures DeliverRef(st, Some(s), Some(b))
      == (0, st.(handled := st.handled + [Handled(s.name, NB.Snapshot(st.heap, b))]))
  {
    NB.SnapshotRef(st.heap, b, b);
    NB.UnrefRef(st.heap, b);
  }

  /**
   * Queued delivery: -ENOSYS without a queue, and -ENOBUFS with a drop
   * recorded when the queue is full, both with the reference given back;
   * otherwise the event {sink, buf} is appended and the buffer holds one
   * more reference.
   */
  lemma DeliverRefQueued(st: FlowState, s: FlowSink, b: BufId)
    requires Good(st) && Wired(st, Some(s)) && b in st.heap.bufs
    requires s.hasHandler && !Filtered(st.heap, s, b) && s.mode == Queued
    ensures var r := DeliverRef(st, Some(s), Some(b));
      (s.msgq.None? ==> r == (-ENOSYS, st))
      && (s.msgq.Some? && |st.queues[s.msgq.value].items| >= st.queues[s.msgq.value].capacity ==>
            r == (-ENOBUFS, st.(dropped := st.dropped + [s.name])))
      && (s.msgq.Some? && |st.queues[s.msgq.value].items| < st.queues[s.msgq.value].capacity ==>
            r.0 == 0 && r.1.heap == NB.Ref(st.heap, b) && r.1.handled == st.handled && r.1.dropped == st.dropped
            && r.1.queues[s.msgq.value].items == st.queues[s.msgq.value].items + [FlowEvent(Some(s), Some(b))]
            && (forall i :: 0 <= i < |st.queues| && i != s.msgq.value ==> r.1.queues[i] == st.queues[i]))
  {
    NB.UnrefRef(st.heap, b);
  }

  /**
   * Every successful delivery either ran the handler or put one event on a
   * queue, and the buffer gains exactly one reference per queued event.
   */
  lemma DeliverRefAccounts(st: FlowState, sink: Option<FlowSink>, b: BufId)
    requires Good(st) && Wired(st, sink) && b in st.heap.bufs
    ensures var r := DeliverRef(st, sink, Some(b));
      var ran := |r.1.handled| - |st.handled|;
      var queued := TotalQueued(r.1.queues) - TotalQueued(st.queues);
      |r.1.handled| >= |st.handled| && TotalQueued(r.1.queues) >= TotalQueued(st.queues)
      && (if r.0 == 0 then 1 else 0) == ran + queued
      && r.1.heap == (if queued == 1 then NB.Ref(st.heap, b) else st.heap)
  {
    var r := DeliverRef(st, sink, Some(b));
    if sink.Some? && sink.value.hasHandler && !Filtered(st.heap, sink.value, b) {
      var s := sink.value;
      if s.mode == Immediate {
        DeliverRefImmediate(st, s, b);
      } else {
        DeliverRefQueued(st, s, b);
        if s.msgq.Some? {
          var q := st.queues[s.msgq.value];
          if |q.items| < q.capacity {
            TotalQueuedUpdate(st.queues, s.msgq.value, q.(items := q.items + [FlowEvent(sink, Some(b))]));
          }
        }
      }
    }
  }

  /**
   * Going from `st` to `st2` ran some handlers and queued some events, `n`
   * is their number, and the buffer gained one reference per queued event.
   */
  ghost predicate Accounts(st: FlowState, n: nat, st2: FlowState, b: BufId)
    requires b in st.heap.bufs
  {
    var queued := TotalQueued(st2.queues) - TotalQueued(st.queues);
    |st2.handled| >= |st.handled| && TotalQueued(st2.queues) >= TotalQueued(st.queues)
    && n == (|st2.handled| - |st.handled|) + queued
    && st2.heap == NB.Bump(st.heap, b, queued)
  }

  lemma AccountsCombine(st: FlowState, st1: FlowState, st2: FlowState, k: nat, n: nat, b: BufId)
    requires b in st.heap.bufs && b in st1.heap.bufs
    requires Accounts(st, k, st1, b) && Accounts(st1, n, st2, b)
    ensures Accounts(st, n + k, st2, b)
  {
    NB.BumpAdd(st.heap, b, TotalQueued(st1.queues) - TotalQueued(st.queues), TotalQueued(st2.queues) - TotalQueued(st1.queues));
  }

  /**
   * _flow_source_send: the count it returns is the number of handler runs
   * plus the number of events queued, and the buffer gains one reference per
   * queued event while every other buffer is untouched.
   */
  lemma {:induction false} SendFromAccounts(st: FlowState, conns: seq<Conn>, b: BufId)
    requires Good(st) && b in st.heap.bufs && AllWired(st, conns)
    ensures Accounts(st, SendFrom(st, conns, b).0, SendFrom(st, conns, b).1, b)
    decreases |conns|
  {
    if |conns| == 0 {
      NB.BumpAdd(st.heap, b, 0, 0);
    } else if conns[0].sink.None? {
      SendFromUnfold(st, conns, b);
      SendFromAccounts(st, conns[1..], b);
    } else {
      var d := DeliverRef(st, conns[0].sink, Some(b));
      DeliverRefAccounts(st, conns[0].sink, b);
      assert Accounts(st, if d.0 == 0 then 1 else 0, d.1, b) by {
        NB.BumpAdd(st.heap, b, 0, 0);
      }
      SendFromUnfold(st, conns, b);
      SendFromAccounts(d.1, conns[1..], b);
      var rest := SendFrom(d.1, conns[1..], b);
      AccountsCombine(st, d.1, rest.1, if d.0 == 0 then 1 else 0, rest.0, b);
    }
  }

  /**
   * flow_source_send (as flow.c has it) refuses a missing source or buffer
   * and a dead buffer with -EINVAL and changes nothing; otherwise it returns
   * the deliveries and consumes exactly the caller's one reference.
   */
  lemma SendConsumes(st: FlowState, conns: Option<seq<Conn>>, buf: Option<BufId>)
    requires Good(st) && (conns.Some? ==> AllWired(st, conns.value))
    ensures var r := Send(st, conns, buf);
      (conns.None? || buf.None? || buf.value !in st.heap.bufs ==> r == (-EINVAL, st))
      && (conns.Some? && buf.Some? && buf.value in st.heap.bufs ==>
            var s := SendRef(st, conns, buf);
            r.0 == s.0 && r.1 == s.1.(heap := NB.Unref(s.1.heap, buf.value)))
  {
  }

  /**
   * flow_sink_deliver (as flow.c has it) is deliver_ref followed by one
   * release of the caller's reference: it returns what deliver_ref returns and
   * runs, queues and drops the same, and the caller's reference either goes
   * with the event onto the queue (the buffer's count as before) or is
   * released. A missing buffer is -EINVAL with nothing changed.
   */
  lemma DeliverConsumes(st: FlowState, sink: Option<FlowSink>, buf: Option<BufId>)
    requires Good(st) && Wired(st, sink) && (buf.Some? ==> buf.value in st.heap.bufs)
    ensures buf.None? ==> Deliver(st, sink, buf) == (-EINVAL, st)
    ensures buf.Some? ==>
      var r := Deliver(st, sink, buf);
      var d := DeliverRef(st, sink, buf);
      r.0 == d.0 && r.1.queues == d.1.queues && r.1.handled == d.1.handled && r.1.dropped == d.1.dropped
      && r.1.heap == (if TotalQueued(d.1.queues) > TotalQueued(st.queues) then st.heap else NB.Unref(st.heap, buf.value))
  {
    if buf.Some? {
      DeliverRefAccounts(st, sink, buf.value);
      NB.UnrefRef(st.heap, buf.value);
    }
  }

  /**
   * flow_source_send_ref: a missing source or buffer is -EINVAL with nothing
   * changed; otherwise it is the walk over the connection list, whose count is
   * the handler runs plus the events queued, with one reference taken per
   * queued event and the caller's own reference kept.
   */
  lemma SendRefAccounts(st: FlowState, conns: Option<seq<Conn>>, buf: Option<BufId>)
    requires Good(st) && (conns.Some? ==> AllWired(st, conns.value)) && (buf.Some? ==> buf.value in st.heap.bufs)
    ensures conns.None? || buf.None? ==> SendRef(st, conns, buf) == (-EINVAL, st)
    ensures conns.Some? && buf.Some? ==>
      var r := SendRef(st, conns, buf);
      var s := SendFrom(st, conns.value, buf.value);
      r.0 == s.0 && r.1 == s.1 && r.0 >= 0 && Accounts(st, r.0, r.1, buf.value)
  {
    if conns.Some? && buf.Some? {
      SendFromAccounts(st, conns.value, buf.value);
    }
  }

  /**
   * The round trip of a queued sink: delivering to it and then processing
   * its queue runs the handler once on the buffer and leaves every reference
   * count as it was.
   */
  lemma QueuedRoundTrip(st: FlowState, s: FlowSink, b: BufId)
    requires Good(st) && Wired(st, Some(s)) && b in st.heap.bufs
    requires s.hasHandler && !Filtered(st.heap, s, b) && s.mode == Queued && s.msgq.Some?
    requires |st.queues[s.msgq.value].items| == 0 && st.queues[s.msgq.value].capacity > 0
    ensures var st1 := DeliverRef(st, Some(s), Some(b)).1;
      var r := EventProcess(st1, s.msgq);
      r.0 == 0 && r.1.heap == st.heap && r.1.queues == st.queues
      && r.1.handled == st.handled + [Handled(s.name, NB.Snapshot(st.heap, b))]
  {
    var qi := s.msgq.value;
    DeliverRefQueued(st, s, b);
    var st1 := DeliverRef(st, Some(s), Some(b)).1;
    assert st1.queues[qi].items == [FlowEvent(Some(s), Some(b))];
    var st2 := st1.(queues := st1.queues[qi := st1.queues[qi].(items := [])]);
    assert st2.queues == st.queues;
    NB.SnapshotRef(st.heap, b, b);
    NB.UnrefRef(st.heap, b);
  }

  /**
   * flow_event_process: -EINVAL without a queue, -EAGAIN with nothing
   * changed on an empty one; otherwise the oldest event leaves the queue
   * and is handled, so a live buffer with a working sink has its handler run
   * and its queued reference released.
   */
  lemma EventProcessOldest(st: FlowState, q: nat)
    requires Good(st) && q < |st.queues|
    ensures var r := EventProcess(st, Some(q));
      var items := st.queues[q].items;
      (|items| == 0 ==> r == (-EAGAIN, st))
      && (|items| > 0 ==>
            r.1.queues == st.queues[q := st.queues[q].(items := items[1..])]
            && var e := items[0];
               (e.sink.Some? && e.sink.value.hasHandler && e.buf.Some? && e.buf.value in st.heap.bufs ==>
                 r.0 == 0 && r.1.heap == NB.Unref(st.heap, e.buf.value)
                 && r.1.handled == st.handled + [Handled(e.sink.value.name, NB.Snapshot(st.heap, e.buf.value))])
               && (e.sink.None? || !e.sink.value.hasHandler || e.buf.None? ==> r.0 == -EINVAL))
  {
  }

  /**
   * flow_buf_alloc's record: id ANY, flags 0, the counter before the
   * increment as u16, and the counter advanced modulo 2^32.
   */
  lemma BufAllocMeta(h: NB.Heap, counter: nat, stale: seq<byte>, ticks: nat)
    requires NB.Valid(h) && counter < U32_LIMIT && |stale| >= WP.META_SIZE
    ensures var (b, h1, c1) := BufAlloc(h, counter, true, stale, false, ticks);
      b.Some? && WP.DecodeMeta(h1.bufs[b.value].userData) == WP.Meta(0xFF, 0, counter % U16_LIMIT, Trunc(ticks, 4))
      && c1 == (counter + 1) % U32_LIMIT
  {
    var m := WP.Meta(0xFF, 0, counter % U16_LIMIT, Trunc(ticks, 4));
    WP.DecodeEncodeMeta(m, stale[WP.META_SIZE..]);
  }

  /** flow_buf_alloc_with_id: the record carries the requested id and the rest of flow_buf_alloc's record. */
  lemma BufAllocWithIdMeta(h: NB.Heap, counter: nat, packetId: byte, stale: seq<byte>, ticks: nat)
    requires NB.Valid(h) && counter < U32_LIMIT && |stale| >= WP.META_SIZE
    ensures var (b, h1, c1) := BufAllocWithId(h, counter, true, packetId, stale, false, ticks);
      b.Some? && WP.DecodeMeta(h1.bufs[b.value].userData) == WP.Meta(packetId, 0, counter % U16_LIMIT, Trunc(ticks, 4))
      && c1 == (counter + 1) % U32_LIMIT
  {
    BufAllocMeta(h, counter, stale, ticks);
    var (b, h0, c0) := BufAlloc(h, counter, true, stale, false, ticks);
    var ud := h0.bufs[b.value].userData;
    var ud' := ud[0 := packetId];
    assert ud'[2..4] == ud[2..4] && ud'[4..8] == ud[4..8];
  }

  /** One step of the walk over the connection list. */
  lemma SendFromUnfold(st: FlowState, conns: seq<Conn>, b: BufId)
    requires Good(st) && b in st.heap.bufs && AllWired(st, conns) && |conns| > 0
    ensures conns[0].sink.None? ==>
      SendFrom(st, conns, b).0 == SendFrom(st, conns[1..], b).0 && SendFrom(st, conns, b).1 == SendFrom(st, conns[1..], b).1
    ensures conns[0].sink.Some? ==>
      var d := DeliverRef(st, conns[0].sink, Some(b));
      AllWired(d.1, conns[1..]) && b in d.1.heap.bufs
      && SendFrom(st, conns, b).0 == SendFrom(d.1, conns[1..], b).0 + (if d.0 == 0 then 1 else 0)
      && SendFrom(st, conns, b).1 == SendFrom(d.1, conns[1..], b).1
  {
  }

  /** A connection leads nowhere or to an immediate sink. */
  predicate AllImmediate(conns: seq<Conn>) {
    forall i :: 0 <= i < |conns| ==> conns[i].sink.None? || conns[i].sink.value.mode == Immediate
  }

  /**
   * A send over connections that lead only to immediate sinks queues
   * nothing and leaves every reference count as it was: each handler gets the
   * buffer and gives its reference back before the next one runs.
   */
  lemma {:induction false} SendFromImmediate(st: FlowState, conns: seq<Conn>, b: BufId)
    requires Good(st) && b in st.heap.bufs && AllWired(st, conns) && AllImmediate(conns)
    ensures SendFrom(st, conns, b).1.heap == st.heap && SendFrom(st, conns, b).1.queues == st.queues
    decreases |conns|
  {
    if |conns| > 0 {
      SendFromUnfold(st, conns, b);
      assert AllImmediate(conns[1..]) by {
        forall i | 0 <= i < |conns[1..]|
          ensures conns[1..][i].sink.None? || conns[1..][i].sink.value.mode == Immediate
        {
          assert conns[1..][i] == conns[i + 1];
        }
      }
      if conns[0].sink.None? {
        SendFromImmediate(st, conns[1..], b);
      } else {
        var s := conns[0].sink.value;
        var d := DeliverRef(st, conns[0].sink, Some(b));
        if s.hasHandler && !Filtered(st.heap, s, b) {
          DeliverRefImmediate(st, s, b);
        }
        assert d.1.heap == st.heap && d.1.queues == st.queues;
        SendFromImmediate(d.1, conns[1..], b);
      }
    }
  }

  // ---- The engine in place ----

  /** A source: its connection list and its two statistics counters. */
  class FlowSource {
    var connections: seq<Conn>
    var sendCount: nat
    var deliveryCount: nat

    constructor ()
      ensures connections == [] && sendCount == 0 && deliveryCount == 0
    {
      connections := [];
      sendCount := 0;
      deliveryCount := 0;
    }
  }

  /**
   * A FLOW_CONNECT entry of the static connection section: its source, as
   * an index among the program's sources, its list node and its sink.
   */
  datatype StaticConn = StaticConn(source: Option<nat>, node: nat, sink: Option<FlowSink>)

  /** The connections that wiring `table` in section order appends to source `s`. */
  function StaticConnsFor(table: seq<StaticConn>, s: nat): (r: seq<Conn>)
    ensures |r| <= |table|
    ensures forall k :: 0 <= k < |r| ==> r[k].node.StaticNode?
  {
    if |table| == 0 then []
    else
      var c := table[|table| - 1];
      StaticConnsFor(table[..|table| - 1], s) + (if c.source == Some(s) && c.sink.Some? then [Conn(StaticNode(c.node), c.sink)] else [])
  }

  /**
   * Source `s` gains exactly the section's entries that name it and have a
   * sink; entries without a source or a sink are skipped.
   */
  lemma {:induction false} StaticConnsForMembers(table: seq<StaticConn>, s: nat, c: Conn)
    ensures c in StaticConnsFor(table, s) <==>
      exists k :: 0 <= k < |table| && table[k].source == Some(s) && table[k].sink.Some? && c == Conn(StaticNode(table[k].node), table[k].sink)
  {
    if |table| > 0 {
      var n := |table| - 1;
      var front := table[..n];
      StaticConnsForMembers(front, s, c);
      if c in StaticConnsFor(front, s) {
        var k :| 0 <= k < |front| && front[k].source == Some(s) && front[k].sink.Some? && c == Conn(StaticNode(front[k].node), front[k].sink);
        assert table[k] == front[k];
      }
      if exists k :: 0 <= k < |table| && table[k].source == Some(s) && table[k].sink.Some? && c == Conn(StaticNode(table[k].node), table[k].sink) {
        var k :| 0 <= k < |table| && table[k].source == Some(s) && table[k].sink.Some? && c == Conn(StaticNode(table[k].node), table[k].sink);
        if k < n {
          assert front[k] == table[k];
        }
      }
    }
  }

  /**
   * flow_init: walk the static connection section in order and append each
   * entry with both a source and a sink to its source's connection list.
   * Nothing else changes, and the result is always 0.
   */
  method FlowInit(table: seq<StaticConn>, srcs: seq<FlowSource>) returns (ret: int)
    requires forall i, j :: 0 <= i < j < |srcs| ==> srcs[i] != srcs[j]
    requires forall k :: 0 <= k < |table| && table[k].source.Some? ==> table[k].source.value < |srcs|
    modifies srcs
    ensures ret == 0
    ensures forall i :: 0 <= i < |srcs| ==>
      srcs[i].connections == old(srcs[i].connections) + StaticConnsFor(table, i)
      && srcs[i].sendCount == old(srcs[i].sendCount) && srcs[i].deliveryCount == old(srcs[i].deliveryCount)
  {
    var k := 0;
    while k < |table|
      invariant 0 <= k <= |table|
      invariant forall i :: 0 <= i < |srcs| ==> srcs[i].connections == old(srcs[i].connections) + StaticConnsFor(table[..k], i)
      invariant forall i :: 0 <= i < |srcs| ==>
        srcs[i].sendCount == old(srcs[i].sendCount) && srcs[i].deliveryCount == old(srcs[i].deliveryCount)
    {
      var c := table[k];
      assert table[..k + 1][..k] == table[..k];
      if c.source.Some? && c.sink.Some? {
        var src := srcs[c.source.value];
        src.connections := src.connections + [Conn(StaticNode(c.node), c.sink)];
      }
      k := k + 1;
    }
    assert table[..|table|] == table;
    return 0;
  }

  class FlowEngine {
    var st: FlowState

    /** The engine at boot: no buffers yet, and one empty event queue of each FLOW_EVENT_QUEUE_DEFINE size. */
    constructor (sizes: seq<nat>)
      ensures Good(st) && st.heap == NB.Heap(map[], 0, false) && st.handled == [] && st.dropped == []
      ensures |st.queues| == |sizes| && forall i :: 0 <= i < |sizes| ==> st.queues[i] == MsgQ([], sizes[i])
    {
      st := FlowState(NB.Heap(map[], 0, false), seq(|sizes|, i requires 0 <= i < |sizes| => MsgQ([], sizes[i])), [], []);
    }

    method BufAllocFrom(pool: FlowBufPool?, stale: seq<byte>, exhausted: bool, ticks: nat) returns (buf: Option<BufId>)
      requires Good(st) && |stale| >= WP.META_SIZE && (pool != null ==> pool.counter < U32_LIMIT)
      modifies this, pool
      ensures Good(st) && st.queues == old(st.queues) && st.handled == old(st.handled) && st.dropped == old(st.dropped)
      ensures pool == null ==> buf.None? && st == old(st)
      ensures pool != null ==> (buf, st.heap, pool.counter) == BufAlloc(old(st.heap), old(pool.counter), true, stale, exhausted, ticks)
    {
      if pool == null || exhausted {
        return None;
      }
      var r := BufAlloc(st.heap, pool.counter, true, stale, false, ticks);
      st := st.(heap := r.1);
      pool.counter := r.2;
      return r.0;
    }

    method SinkDeliverRef(sink: Option<FlowSink>, buf: Option<BufId>) returns (ret: int)
      requires Good(st) && Wired(st, sink) && (buf.Some? ==> buf.value in st.heap.bufs)
      modifies this
      ensures Good(st) && (ret, st) == DeliverRef(old(st), sink, buf)
    {
      var r := DeliverRef(st, sink, buf);
      ret, st := r.0, r.1;
    }

    method SinkDeliver(sink: Option<FlowSink>, buf: Option<BufId>) returns (ret: int)
      requires Good(st) && Wired(st, sink) && (buf.Some? ==> buf.value in st.heap.bufs)
      modifies this
      ensures Good(st) && (ret, st) == Deliver(old(st), sink, buf)
    {
      if buf.None? {
        ret := SinkDeliverRef(sink, None);
        return;
      }
      ret := SinkDeliverRef(sink, buf);
      st := st.(heap := NB.Unref(st.heap, buf.value));
    }

    /** _flow_source_send: the statistics are bumped and the connection list is walked in order. */
    method SourceSendInner(src: FlowSource, b: BufId) returns (delivered: nat)
      requires Good(st) && b in st.heap.bufs && AllWired(st, src.connections)
      modifies this, src`sendCount, src`deliveryCount
      ensures Good(st) && (delivered, st) == SendFrom(old(st), src.connections, b)
      ensures src.sendCount == old(src.sendCount) + 1 && src.deliveryCount == old(src.deliveryCount) + delivered
    {
      src.sendCount := src.sendCount + 1;
      var conns := src.connections;
      delivered := 0;
      var i := 0;
      ghost var start := st;
      while i < |conns|
        invariant 0 <= i <= |conns|
        invariant Good(st) && b in st.heap.bufs && AllWired(st, conns)
        invariant src.sendCount == old(src.sendCount) + 1 && src.deliveryCount == old(src.deliveryCount)
        invariant SendFrom(start, conns, b).0 == delivered + SendFrom(st, conns[i..], b).0
        invariant SendFrom(start, conns, b).1 == SendFrom(st, conns[i..], b).1
        decreases |conns| - i
      {
        ghost var prev := st;
        SendFromUnfold(st, conns[i..], b);
        assert conns[i..][1..] == conns[i + 1..];
        if conns[i].sink.Some? {
          var ret := SinkDeliverRef(conns[i].sink, Some(b));
          if ret == 0 {
            delivered := delivered + 1;
          }
          assert AllWired(st, conns) by {
            assert |st.queues| == |prev.queues|;
          }
        }
        i := i + 1;
      }
      assert conns[i..] == [];
      src.deliveryCount := src.deliveryCount + delivered;
    }

    method SourceSendRef(src: FlowSource?, buf: Option<BufId>) returns (ret: int)
      requires Good(st) && (src != null ==> AllWired(st, src.connections)) && (buf.Some? ==> buf.value in st.heap.bufs)
      modifies this, src
      ensures Good(st) && (src != null ==> src.connections == old(src.connections))
      ensures src == null || buf.None? ==> ret == -EINVAL && st == old(st)
      ensures src != null && buf.Some? ==>
        (ret, st) == SendRef(old(st), Some(old(src.connections)), buf)
        && src.sendCount == old(src.sendCount) + 1 && src.deliveryCount == old(src.deliveryCount) + ret
    {
      if src == null || buf.None? {
        return -EINVAL;
      }
      var n := SourceSendInner(src, buf.value);
      ret := n;
    }

    method SourceSend(src: FlowSource?, buf: Option<BufId>) returns (ret: int)
      requires Good(st) && (src != null ==> AllWired(st, src.connections))
      modifies this, src
      ensures Good(st) && (src != null ==> src.connections == old(src.connections))
      ensures src == null ==> ret == -EINVAL && st == old(st)
      ensures src != null ==> (ret, st) == Send(old(st), Some(old(src.connections)), buf)
    {
      if src == null || buf.None? {
        return -EINVAL;
      }
      if buf.value !in st.heap.bufs {
        return -EINVAL;
      }
      ret := SourceSendRef(src, buf);
      st := st.(heap := NB.Unref(st.heap, buf.value));
    }

    method ProcessEvent(q: Option<nat>) returns (ret: int)
      requires Good(st) && (q.Some? ==> q.value < |st.queues|)
      modifies this
      ensures Good(st) && (ret, st) == EventProcess(old(st), q)
    {
      if q.None? {
        return -EINVAL;
      }
      var queue := st.queues[q.value];
      if |queue.items| == 0 {
        return -EAGAIN;
      }
      var e := queue.items[0];
      st := st.(queues := st.queues[q.value := queue.(items := queue.items[1..])]);
      var r := EventHandler(st, e.sink, e.buf);
      ret, st := r.0, r.1;
    }
  }
}

// The protocol module of the weave packet-routing sample. Outbound, it puts
// the 14-byte sensor header in front of a sensor packet by chaining the
// packet after a freshly allocated header buffer; inbound, it restores the
// packet metadata from a received header and strips it.
//
// The tick/cycle/nanosecond conversions of the timestamp are Zephyr
// functions outside this model; they are the parameters `nsOfTicks` and
// `ticksOfNs`.
module WeaveProtocol {
  import opened Bytes
  import opened Wrappers
  import NB = NetBuf
  import opened NetState
  import WP = WeavePacket
  import opened SensorWire
  import PySocket
  import SensorStream

  /** A getter's value, or 0 when it fails, as the handler falls back. */
  function OrZero(r: Result<nat, int>): nat {
    if r.Ok? then r.value else 0
  }

  /**
   * The header outbound_handler fills in for `buf`: the packet id, reserved
   * 0, the counter (0 if unreadable), the chain length cut to uint16_t and
   * the timestamp converted to nanoseconds cut to uint64_t.
   */
  function HeaderFor(h: NB.Heap, buf: BufId, id: byte, nsOfTicks: nat -> nat): (hdr: SensorHeader)
    requires NB.Valid(h) && buf in h.bufs
    ensures ValidHeader(hdr)
  {
    Pow256Values();
    var counter := OrZero(WP.Get(h, Some(buf), WP.CounterField, true));
    var ticks := OrZero(WP.Get(h, Some(buf), WP.TicksField, true));
    SensorHeader(id, 0, Trunc(counter, 2), Trunc(NB.FragsLen(h, buf), 2), Trunc(nsOfTicks(ticks), 8))
  }

  /**
   * outbound_handler on `buf`: the heap afterwards, the frames handed to the
   * outbound source, and the header pool's counter. Nothing is sent when the
   * header pool is exhausted, or when `buf` has no packet id (the header
   * buffer is then released again).
   */
  function Outbound(h: NB.Heap, counter: nat, buf: BufId, stale: seq<byte>, exhausted: bool,
                    now: nat, nsOfTicks: nat -> nat): (r: (NB.Heap, seq<NB.Frame>, nat))
    requires NB.Valid(h) && buf in h.bufs && counter < U32_LIMIT && |stale| == WP.META_SIZE
    ensures NB.Valid(r.0) && |r.1| <= 1 && r.2 < U32_LIMIT
  {
    var (hb, h1, c1) := WP.Alloc(h, counter, Some((true, WP.META_SIZE)), stale, exhausted, now);
    if hb.None? then (h, [], counter)
    else
      var hd := hb.value;
      var id := WP.Get(h1, Some(buf), WP.PacketIdField, true);
      if id.Err? then (NB.Unref(h1, hd), [], c1)
      else
        var hdr := HeaderFor(h1, buf, id.value, nsOfTicks);
        var h3 := NB.Ref(NB.Append(h1, hd, EncodeHeader(hdr)), buf);
        NB.ChainedRelease(h1, hd, buf, EncodeHeader(hdr));
        var h4 := NB.FragAdd(h3, hd, buf);
        (NB.Unref(h4, hd), [NB.Snapshot(h4, hd)], c1)
  }

  /**
   * Whatever happens, outbound_handler leaves every buffer it was given as
   * it found it: the header buffer is freed by the consuming send (or by the
   * release on the no-id path) and the extra reference on the payload goes
   * with it.
   */
  lemma OutboundBalanced(h: NB.Heap, counter: nat, buf: BufId, stale: seq<byte>, exhausted: bool,
                         now: nat, nsOfTicks: nat -> nat)
    requires NB.Valid(h) && buf in h.bufs && counter < U32_LIMIT && |stale| == WP.META_SIZE
    ensures var r := Outbound(h, counter, buf, stale, exhausted, now, nsOfTicks);
      r.0.bufs == h.bufs && r.0.fault == h.fault
  {
    var (hb, h1, c1) := WP.Alloc(h, counter, Some((true, WP.META_SIZE)), stale, exhausted, now);
    if hb.Some? {
      var hd := hb.value;
      assert h1.bufs - {hd} == h.bufs;
      var id := WP.Get(h1, Some(buf), WP.PacketIdField, true);
      if id.Err? {
        assert NB.Unref(h1, hd) == h1.(bufs := h1.bufs - {hd});
      } else {
        var hdr := HeaderFor(h1, buf, id.value, nsOfTicks);
        NB.ChainedRelease(h1, hd, buf, EncodeHeader(hdr));
      }
    }
  }

  /**
   * What is forwarded, when `buf` has a packet id: one frame of two parts,
   * the 14-byte header and then the payload chain unchanged, and the
   * header's content_length is the payload's length whenever that fits in
   * 16 bits. A packet without an id is not forwarded.
   */
  lemma OutboundFrame(h: NB.Heap, counter: nat, buf: BufId, stale: seq<byte>, now: nat, nsOfTicks: nat -> nat)
    requires NB.Valid(h) && buf in h.bufs && counter < U32_LIMIT && |stale| == WP.META_SIZE
    ensures var r := Outbound(h, counter, buf, stale, false, now, nsOfTicks);
      var meta := WP.GetMeta(h, Some(buf));
      (meta.None? ==> r.1 == [])
      && (meta.Some? ==> (
        var hdr := HeaderFor(h, buf, meta.value.packetId, nsOfTicks);
        r.1 == [NB.Frame([EncodeHeader(hdr)] + NB.FragData(h, buf), r.1[0].userData)]
        && hdr.packetId == meta.value.packetId && hdr.counter == meta.value.counter
        && (NB.FragsLen(h, buf) < U16_LIMIT ==> hdr.contentLength == NB.FragsLen(h, buf))))
  {
    var (hb, h1, c1) := WP.Alloc(h, counter, Some((true, WP.META_SIZE)), stale, false, now);
    var hd := hb.value;
    assert h1.bufs[buf] == h.bufs[buf];
    assert WP.GetMeta(h1, Some(buf)) == WP.GetMeta(h, Some(buf));
    var meta := WP.GetMeta(h, Some(buf));
    if meta.Some? {
      assert NB.SameLinks(h, h1, buf);
      NB.ChainSameLinks(h, h1, buf);
      NB.FragDataSame(h, h1, buf);
      var id := WP.Get(h1, Some(buf), WP.PacketIdField, true);
      assert WP.Get(h1, Some(buf), WP.CounterField, true) == WP.Get(h, Some(buf), WP.CounterField, true);
      assert WP.Get(h1, Some(buf), WP.TicksField, true) == WP.Get(h, Some(buf), WP.TicksField, true);
      var hdr := HeaderFor(h1, buf, id.value, nsOfTicks);
      assert hdr == HeaderFor(h, buf, meta.value.packetId, nsOfTicks);
      NB.ChainedData(h1, hd, buf, EncodeHeader(hdr));
    }
  }

  /**
   * The forwarded bytes are what the Python clients read back: a packet
   * with a payload of 1 to 65535 bytes arrives as a SensorPacket with the
   * metadata's id and counter and the payload bytes.
   */
  lemma OutboundReadBack(h: NB.Heap, counter: nat, buf: BufId, stale: seq<byte>, now: nat,
                         nsOfTicks: nat -> nat, incoming: seq<PySocket.Incoming>, more: seq<byte>)
    requires NB.Valid(h) && buf in h.bufs && counter < U32_LIMIT && |stale| == WP.META_SIZE
    requires WP.GetMeta(h, Some(buf)).Some? && 0 < NB.FragsLen(h, buf) < U16_LIMIT
    requires var r := Outbound(h, counter, buf, stale, false, now, nsOfTicks);
      |r.1| == 1 && PySocket.Available(incoming) == NB.Concat(r.1[0].frags) + more
    ensures var meta := WP.GetMeta(h, Some(buf)).value;
      var p := SensorStream.ReadPacket(incoming).0;
      p.Some? && p.value.packetId == meta.packetId && p.value.counter == meta.counter
      && p.value.payload == NB.Concat(NB.FragData(h, buf))
      && PySocket.Available(SensorStream.ReadPacket(incoming).1) == more
  {
    OutboundFrame(h, counter, buf, stale, now, nsOfTicks);
    var meta := WP.GetMeta(h, Some(buf)).value;
    var hdr := HeaderFor(h, buf, meta.packetId, nsOfTicks);
    var payload := NB.Concat(NB.FragData(h, buf));
    var p := SensorStream.SensorPacket(hdr.packetId, hdr.counter, hdr.timestampNs, hdr.contentLength, payload);
    assert SensorStream.ValidPacket(p);
    assert SensorStream.HeaderOf(p) == hdr;
    var r := Outbound(h, counter, buf, stale, false, now, nsOfTicks);
    assert NB.Concat(r.1[0].frags) == EncodeHeader(hdr) + payload by {
      assert r.1[0].frags == [EncodeHeader(hdr)] + NB.FragData(h, buf);
      assert NB.Concat(r.1[0].frags) == r.1[0].frags[0] + NB.Concat(r.1[0].frags[1..]);
      assert r.1[0].frags[1..] == NB.FragData(h, buf);
    }
    SensorStream.ReadPacketOfEncoded(p, incoming, more);
  }

  /**
   * inbound_handler on `buf`: a head buffer under 14 bytes is ignored;
   * otherwise the id, counter and timestamp are copied from the header into
   * the metadata (each set failing quietly when there is none), the 14
   * bytes are pulled off, and the rest is forwarded keeping the caller's
   * reference.
   */
  function Inbound(h: NB.Heap, buf: BufId, ticksOfNs: nat -> nat): (r: (NB.Heap, seq<NB.Frame>))
    requires NB.Valid(h) && buf in h.bufs
    ensures NB.Valid(r.0) && r.0.bufs.Keys == h.bufs.Keys
  {
    var data := h.bufs[buf].data;
    if |data| < HEADER_SIZE then (h, [])
    else
      Pow256Values();
      var hdr := DecodeHeader(data[..HEADER_SIZE]);
      var h1 := WP.Set(h, Some(buf), WP.PacketIdField, hdr.packetId).1;
      var h2 := WP.Set(h1, Some(buf), WP.CounterField, hdr.counter).1;
      var h3 := WP.Set(h2, Some(buf), WP.TicksField, Trunc(ticksOfNs(hdr.timestampNs), 4)).1;
      var h4 := NB.Pull(h3, buf, HEADER_SIZE);
      (h4, [NB.Snapshot(h4, buf)])
  }

  /**
   * The inbound half of the round trip: a received buffer holding a header
   * and a payload, with metadata, comes out with the header's id and
   * counter in its metadata and only the payload as its data, and that is
   * what is forwarded. The id must be non-zero: setting id 0 on an otherwise
   * zero record would erase the record, and the later sets would then fail.
   */
  lemma InboundRestores(h: NB.Heap, buf: BufId, hdr: SensorHeader, payload: seq<byte>, ticksOfNs: nat -> nat)
    requires NB.Valid(h) && buf in h.bufs && ValidHeader(hdr) && hdr.packetId != 0
    requires h.bufs[buf].data == EncodeHeader(hdr) + payload
    requires WP.GetMeta(h, Some(buf)).Some?
    ensures var (h', sent) := Inbound(h, buf, ticksOfNs);
      var meta := WP.GetMeta(h', Some(buf));
      meta.Some? && meta.value.packetId == hdr.packetId && meta.value.counter == hdr.counter
      && h'.bufs[buf].data == payload && h'.bufs[buf].ref == h.bufs[buf].ref
      && |sent| == 1 && sent[0].frags[0] == payload
  {
    Pow256Values();
    var data := h.bufs[buf].data;
    assert data[..HEADER_SIZE] == EncodeHeader(hdr);
    DecodeEncodeHeader(hdr);
    var ticks := Trunc(ticksOfNs(hdr.timestampNs), 4);
    WP.SetChangesOneField(h, buf, WP.PacketIdField, hdr.packetId);
    var h1 := WP.Set(h, Some(buf), WP.PacketIdField, hdr.packetId).1;
    assert WP.GetMeta(h1, Some(buf)).Some? by {
      WP.MetaIsZeroAllZero(h1.bufs[buf].userData);
      assert h1.bufs[buf].userData[0] == hdr.packetId;
    }
    WP.SetChangesOneField(h1, buf, WP.CounterField, hdr.counter);
    var h2 := WP.Set(h1, Some(buf), WP.CounterField, hdr.counter).1;
    assert WP.GetMeta(h2, Some(buf)).Some? by {
      WP.MetaIsZeroAllZero(h2.bufs[buf].userData);
      assert h2.bufs[buf].userData[0] == hdr.packetId;
    }
    WP.SetChangesOneField(h2, buf, WP.TicksField, ticks);
    var h3 := WP.Set(h2, Some(buf), WP.TicksField, ticks).1;
    assert WP.GetMeta(h3, Some(buf)).Some? by {
      WP.MetaIsZeroAllZero(h3.bufs[buf].userData);
      assert h3.bufs[buf].userData[0] == hdr.packetId;
    }
    var h4 := NB.Pull(h3, buf, HEADER_SIZE);
    assert h4.bufs[buf].userData == h3.bufs[buf].userData;
    assert h4.bufs[buf].data == payload;
  }

  /** A buffer too short for a header is left as it is and nothing is forwarded. */
  lemma InboundShort(h: NB.Heap, buf: BufId, ticksOfNs: nat -> nat)
    requires NB.Valid(h) && buf in h.bufs && |h.bufs[buf].data| < HEADER_SIZE
    ensures Inbound(h, buf, ticksOfNs) == (h, [])
  {
  }

  /** The module's own state: the header pool and the buffers it works on. */
  class Protocol {
    const net: Net
    const pool: WP.PacketPool

    /** protocol_pool: four header buffers, each with room for the metadata record. */
    constructor (net: Net, pool: WP.PacketPool)
      requires pool.hasPool && pool.userDataSize == WP.META_SIZE
      ensures this.net == net && this.pool == pool
    {
      this.net := net;
      this.pool := pool;
    }

    method OutboundHandler(buf: BufId, stale: seq<byte>, exhausted: bool, now: nat, nsOfTicks: nat -> nat)
      requires net.Ok() && buf in net.heap.bufs && pool.counter < U32_LIMIT && |stale| == WP.META_SIZE
      requires pool.hasPool && pool.userDataSize == WP.META_SIZE
      modifies net, pool
      ensures net.Ok()
      ensures var r := Outbound(old(net.heap), old(pool.counter), buf, stale, exhausted, now, nsOfTicks);
        net.heap == r.0 && net.sent == old(net.sent) + r.1 && pool.counter == r.2
    {
      var headerBuf := WP.AllocWithIdFrom(net, pool, WP.ID_ANY, stale, exhausted, now);
      if headerBuf.None? {
        return;
      }
      var hd := headerBuf.value;
      var packetId := WP.Get(net.heap, Some(buf), WP.PacketIdField, true);
      if packetId.Err? {
        net.Unref(hd);
        return;
      }
      var hdr := HeaderFor(net.heap, buf, packetId.value, nsOfTicks);
      ChainAndSend(hd, buf, EncodeHeader(hdr));
    }

    /** Write the header, link the payload under it with a reference of its own, and send the header consumed. */
    method ChainAndSend(hd: BufId, buf: BufId, bytes: seq<byte>)
      requires net.Ok() && hd in net.heap.bufs && buf in net.heap.bufs && buf < hd
      requires net.heap.bufs[hd].ref == 1 && net.heap.bufs[hd].frag.None?
      modifies net
      ensures net.Ok()
      ensures (var h3 := NB.Ref(NB.Append(old(net.heap), hd, bytes), buf);
        NB.ChainedRelease(old(net.heap), hd, buf, bytes);
        var h4 := NB.FragAdd(h3, hd, buf);
        net.heap == NB.Unref(h4, hd) && net.sent == old(net.sent) + [NB.Snapshot(h4, hd)])
    {
      ghost var h1 := net.heap;
      net.Append(hd, bytes);
      net.Ref(buf);
      NB.ChainedRelease(h1, hd, buf, bytes);
      net.FragAdd(hd, buf);
      WP.Send(net, hd, true);
    }

    method InboundHandler(buf: BufId, ticksOfNs: nat -> nat)
      requires net.Ok() && buf in net.heap.bufs
      modifies net
      ensures net.Ok()
      ensures var r := Inbound(old(net.heap), buf, ticksOfNs);
        net.heap == r.0 && net.sent == old(net.sent) + r.1
    {
      if |net.heap.bufs[buf].data| < HEADER_SIZE {
        return;
      }
      Pow256Values();
      var hdr := DecodeHeader(net.heap.bufs[buf].data[..HEADER_SIZE]);
      StampMeta(buf, hdr.packetId, hdr.counter, Trunc(ticksOfNs(hdr.timestampNs), 4));
      net.Pull(buf, HEADER_SIZE);
      WP.Send(net, buf, false);
    }

    /** The three metadata writes of the inbound handler: packet id, counter and ticks, in that order. */
    method StampMeta(buf: BufId, packetId: nat, counter: nat, ticks: nat)
      requires net.Ok() && buf in net.heap.bufs
      requires packetId < Pow256(1) && counter < Pow256(2) && ticks < Pow256(4)
      modifies net
      ensures net.Ok() && net.sent == old(net.sent)
      ensures var h1 := WP.Set(old(net.heap), Some(buf), WP.PacketIdField, packetId).1;
        var h2 := WP.Set(h1, Some(buf), WP.CounterField, counter).1;
        net.heap == WP.Set(h2, Some(buf), WP.TicksField, ticks).1
    {
      var _ := WP.SetField(net, Some(buf), WP.PacketIdField, packetId);
      var _ := WP.SetField(net, Some(buf), WP.CounterField, counter);
      var _ := WP.SetField(net, Some(buf), WP.TicksField, ticks);
    }
  }
}

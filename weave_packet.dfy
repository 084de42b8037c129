// Weave packets: net_buf chains that carry an 8-byte metadata record in the
// head buffer's user data (packet id, client id, a per-pool counter and a
// tick timestamp), the sink filter applied when a reference is taken, and
// allocation from a counting pool. Timestamps are the tick variant; the
// 64-bit cycle variant is not modelled.
module WeavePacket {
  import opened Bytes
  import opened Wrappers
  import opened Errno
  import NB = NetBuf
  import opened NetState

  /** The id that matches every filter, and the filter that accepts every id. */
  const ID_ANY: byte := 0xFF
  const META_SIZE: nat := 8

  datatype Meta = Meta(packetId: byte, clientId: byte, counter: nat, ticks: nat)

  predicate ValidMeta(m: Meta) {
    m.counter < U16_LIMIT && m.ticks < U32_LIMIT
  }

  /** The packed record: id, client id, counter as u16, ticks as u32, little-endian. */
  function EncodeMeta(m: Meta): (r: seq<byte>)
    requires ValidMeta(m)
    ensures |r| == META_SIZE && r[0] == m.packetId && r[1] == m.clientId
  {
    Pow256Values();
    [m.packetId, m.clientId] + EncodeLE(m.counter, 2) + EncodeLE(m.ticks, 4)
  }

  function DecodeMeta(ud: seq<byte>): (m: Meta)
    requires |ud| >= META_SIZE
    ensures ValidMeta(m)
  {
    Pow256Values();
    Meta(ud[0], ud[1], ReadLE(ud, 2, 2), ReadLE(ud, 4, 4))
  }

  lemma DecodeEncodeMeta(m: Meta, rest: seq<byte>)
    requires ValidMeta(m)
    ensures DecodeMeta(EncodeMeta(m) + rest) == m
  {
    Pow256Values();
    var ud := EncodeMeta(m) + rest;
    assert ud[2..4] == EncodeLE(m.counter, 2);
    assert ud[4..8] == EncodeLE(m.ticks, 4);
    DecodeEncodeLE(m.counter, 2);
    DecodeEncodeLE(m.ticks, 4);
  }

  /**
   * weave_packet_meta_is_zero as written: the first byte is 0 and each of
   * the remaining seven equals the one before it.
   */
  predicate MetaIsZero(ud: seq<byte>)
    requires |ud| >= META_SIZE
  {
    ud[0] == 0 && ud[1..META_SIZE] == ud[..META_SIZE - 1]
  }

  /** That test holds exactly when all eight metadata bytes are 0. */
  lemma MetaIsZeroAllZero(ud: seq<byte>)
    requires |ud| >= META_SIZE
    ensures MetaIsZero(ud) <==> forall i :: 0 <= i < META_SIZE ==> ud[i] == 0
  {
    if MetaIsZero(ud) {
      var k := 0;
      while k < META_SIZE
        invariant 0 <= k <= META_SIZE
        invariant forall i :: 0 <= i < k ==> ud[i] == 0
      {
        if k > 0 {
          assert ud[k] == ud[1..META_SIZE][k - 1] == ud[..META_SIZE - 1][k - 1];
        }
        k := k + 1;
      }
    }
  }

  /** A buffer reference as the C code passes it: NULL or a live buffer. */
  predicate Live(h: NB.Heap, buf: Option<BufId>) {
    buf.Some? ==> buf.value in h.bufs
  }

  /**
   * weave_packet_get_meta: no metadata for a NULL buffer, a user-data area
   * smaller than the record, or a record that is all zero bytes.
   */
  function GetMeta(h: NB.Heap, buf: Option<BufId>): (r: Option<Meta>)
    requires Live(h, buf)
    ensures r.Some? <==> buf.Some? && |h.bufs[buf.value].userData| >= META_SIZE
                         && !MetaIsZero(h.bufs[buf.value].userData)
    ensures r.Some? ==> r.value == DecodeMeta(h.bufs[buf.value].userData)
  {
    if buf.None? then None
    else
      var ud := h.bufs[buf.value].userData;
      if |ud| < META_SIZE || MetaIsZero(ud) then None else Some(DecodeMeta(ud))
  }

  /** Metadata that was written is read back, unless every field was 0. */
  lemma GetMetaOfEncoded(h: NB.Heap, id: BufId, m: Meta)
    requires id in h.bufs && ValidMeta(m)
    requires |h.bufs[id].userData| >= META_SIZE && h.bufs[id].userData[..META_SIZE] == EncodeMeta(m)
    ensures GetMeta(h, Some(id)) == if m == Meta(0, 0, 0, 0) then None else Some(m)
  {
    var ud := h.bufs[id].userData;
    assert ud == EncodeMeta(m) + ud[META_SIZE..];
    DecodeEncodeMeta(m, ud[META_SIZE..]);
    MetaIsZeroAllZero(ud);
    Pow256Values();
    if MetaIsZero(ud) {
      assert ud[2..4] == [0, 0];
      assert ud[4..8] == [0, 0, 0, 0];
      assert DecodeLE([0, 0]) == 0;
      assert DecodeLE([0, 0, 0, 0]) == 0;
      assert ReadLE(ud, 2, 2) == 0 && ReadLE(ud, 4, 4) == 0;
      assert m == DecodeMeta(ud) == Meta(0, 0, 0, 0);
    }
    if m == Meta(0, 0, 0, 0) {
      assert EncodeMeta(m) == [0, 0, 0, 0, 0, 0, 0, 0];
    }
  }

  /** The four metadata fields and where they sit in the record. */
  datatype Field = PacketIdField | ClientIdField | CounterField | TicksField

  function Offset(f: Field): nat {
    match f
    case PacketIdField => 0
    case ClientIdField => 1
    case CounterField => 2
    case TicksField => 4
  }

  function Width(f: Field): (w: nat)
    ensures Offset(f) + w <= META_SIZE
  {
    match f
    case PacketIdField => 1
    case ClientIdField => 1
    case CounterField => 2
    case TicksField => 4
  }

  function FieldOf(m: Meta, f: Field): nat {
    match f
    case PacketIdField => m.packetId
    case ClientIdField => m.clientId
    case CounterField => m.counter
    case TicksField => m.ticks
  }

  function WithField(m: Meta, f: Field, v: nat): (r: Meta)
    requires v < Pow256(Width(f))
  {
    Pow256Values();
    match f
    case PacketIdField => m.(packetId := v)
    case ClientIdField => m.(clientId := v)
    case CounterField => m.(counter := v)
    case TicksField => m.(ticks := v)
  }

  /**
   * The getters (weave_packet_get_id, _get_client_id, _get_counter,
   * _get_timestamp_ticks): -EINVAL when there is no metadata or the out
   * pointer is NULL, otherwise the field, read from its bytes.
   */
  function Get(h: NB.Heap, buf: Option<BufId>, f: Field, outPtr: bool): (r: Result<nat, int>)
    requires Live(h, buf)
    ensures r.Err? <==> GetMeta(h, buf).None? || !outPtr
    ensures r.Err? ==> r.error == -EINVAL
    ensures r.Ok? ==> r.value == FieldOf(GetMeta(h, buf).value, f)
  {
    if GetMeta(h, buf).None? || !outPtr then Err(-EINVAL)
    else
      var ud := h.bufs[buf.value].userData;
      assert ReadLE(ud, 0, 1) == ud[0] && ReadLE(ud, 1, 1) == ud[1];
      Ok(ReadLE(ud, Offset(f), Width(f)))
  }

  /**
   * The setters (weave_packet_set_id, _set_client_id, _set_counter,
   * _set_timestamp_ticks, and update_timestamp with the clock as `v`):
   * -EINVAL and nothing written when there is no metadata, otherwise the
   * field's bytes overwritten in place.
   */
  function Set(h: NB.Heap, buf: Option<BufId>, f: Field, v: nat): (r: (int, NB.Heap))
    requires NB.Valid(h) && Live(h, buf) && v < Pow256(Width(f))
    ensures NB.Valid(r.1) && r.1.bufs.Keys == h.bufs.Keys && r.1.next == h.next && r.1.fault == h.fault
    ensures forall x :: x in h.bufs ==> r.1.bufs[x] == h.bufs[x].(userData := r.1.bufs[x].userData)
    ensures r.0 == 0 || r.0 == -EINVAL
    ensures r.0 == -EINVAL <==> GetMeta(h, buf).None?
    ensures r.0 == -EINVAL ==> r.1 == h
  {
    match GetMeta(h, buf)
    case None => (-EINVAL, h)
    case Some(_) =>
      var ud := h.bufs[buf.value].userData;
      (0, NB.SetUserData(h, buf.value, Splice(ud, Offset(f), EncodeLE(v, Width(f)))))
  }

  /**
   * A successful set changes exactly the one field in the record, nothing
   * else in the buffer, and no other buffer.
   */
  lemma SetChangesOneField(h: NB.Heap, id: BufId, f: Field, v: nat)
    requires NB.Valid(h) && id in h.bufs && v < Pow256(Width(f))
    requires GetMeta(h, Some(id)).Some?
    ensures var h' := Set(h, Some(id), f, v).1;
      var ud := h.bufs[id].userData;
      var ud' := h'.bufs[id].userData;
      |ud'| == |ud| && DecodeMeta(ud') == WithField(DecodeMeta(ud), f, v)
      && ud'[META_SIZE..] == ud[META_SIZE..]
      && h'.bufs[id].data == h.bufs[id].data && h'.bufs[id].ref == h.bufs[id].ref
      && h'.bufs[id].frag == h.bufs[id].frag
      && (forall x :: x in h.bufs && x != id ==> h'.bufs[x] == h.bufs[x])
  {
    Pow256Values();
    var ud := h.bufs[id].userData;
    var w := EncodeLE(v, Width(f));
    var ud' := Splice(ud, Offset(f), w);
    DecodeEncodeLE(v, Width(f));
    assert ud'[Offset(f)..Offset(f) + Width(f)] == w;
    assert ud'[META_SIZE..] == ud[META_SIZE..];
    match f {
      case PacketIdField =>
        assert ud'[0] == w[0] == v;
        assert ud'[2..4] == ud[2..4] && ud'[4..8] == ud[4..8];
      case ClientIdField =>
        assert ud'[1] == w[0] == v;
        assert ud'[2..4] == ud[2..4] && ud'[4..8] == ud[4..8];
      case CounterField =>
        assert ud'[4..8] == ud[4..8];
      case TicksField =>
        assert ud'[2..4] == ud[2..4];
    }
  }

  /** Set followed by get returns the value set, as long as the record did not become all zero. */
  lemma SetThenGet(h: NB.Heap, buf: Option<BufId>, f: Field, v: nat)
    requires NB.Valid(h) && Live(h, buf) && v < Pow256(Width(f))
    requires Set(h, buf, f, v).0 == 0
    requires GetMeta(Set(h, buf, f, v).1, buf).Some?
    ensures Get(Set(h, buf, f, v).1, buf, f, true) == Ok(v)
  {
    SetChangesOneField(h, buf.value, f, v);
  }

  /**
   * Setting the id to 0 on a record whose other fields are all 0 makes the
   * buffer read as having no metadata at all.
   */
  lemma SetIdZeroErasesMeta(h: NB.Heap, id: BufId)
    requires NB.Valid(h) && id in h.bufs && |h.bufs[id].userData| >= META_SIZE
    requires h.bufs[id].userData[..META_SIZE] == EncodeMeta(Meta(7, 0, 0, 0))
    ensures Set(h, Some(id), PacketIdField, 0).0 == 0
    ensures GetMeta(Set(h, Some(id), PacketIdField, 0).1, Some(id)).None?
  {
    GetMetaOfEncoded(h, id, Meta(7, 0, 0, 0));
    SetChangesOneField(h, id, PacketIdField, 0);
    var h' := Set(h, Some(id), PacketIdField, 0).1;
    var ud' := h'.bufs[id].userData;
    assert DecodeMeta(ud') == Meta(0, 0, 0, 0);
    DecodeLEZero(ud'[2..4]);
    DecodeLEZero(ud'[4..8]);
    assert forall i :: 0 <= i < META_SIZE ==> ud'[i] == 0 by {
      forall i | 2 <= i < META_SIZE
        ensures ud'[i] == 0
      {
        if i < 4 {
          assert ud'[i] == ud'[2..4][i - 2];
        } else {
          assert ud'[i] == ud'[4..8][i - 4];
        }
      }
    }
    MetaIsZeroAllZero(ud');
  }

  /** The sink context: the packet id it accepts, ID_ANY for every id. */
  datatype SinkCtx = SinkCtx(filter: byte)

  /**
   * packet_buf_ref: a sink with a filter other than ID_ANY refuses a packet
   * whose metadata carries another id that is not ID_ANY (-EACCES, no
   * reference taken); everything else passes and gains one reference.
   */
  function PacketRef(h: NB.Heap, id: BufId, ctx: Option<SinkCtx>): (r: (int, NB.Heap))
    requires NB.Valid(h) && id in h.bufs
    ensures r.0 == 0 || r.0 == -EACCES
    ensures r.0 == -EACCES <==>
      ctx.Some? && ctx.value.filter != ID_ANY && GetMeta(h, Some(id)).Some?
      && GetMeta(h, Some(id)).value.packetId != ctx.value.filter
      && GetMeta(h, Some(id)).value.packetId != ID_ANY
    ensures r.1 == if r.0 == 0 then NB.Ref(h, id) else h
  {
    if ctx.Some? && ctx.value.filter != ID_ANY then
      var meta := GetMeta(h, Some(id));
      if meta.Some? && meta.value.packetId != ctx.value.filter && meta.value.packetId != ID_ANY then
        (-EACCES, h)
      else (0, NB.Ref(h, id))
    else (0, NB.Ref(h, id))
  }

  /** Taking a reference through the filter and releasing it again leaves the heap as it was. */
  lemma PacketRefUnref(h: NB.Heap, id: BufId, ctx: Option<SinkCtx>)
    requires NB.Valid(h) && id in h.bufs
    ensures var (ret, h') := PacketRef(h, id, ctx);
      ret == 0 ==> NB.Unref(h', id) == h
  {
    NB.UnrefRef(h, id);
  }

  /**
   * A weave packet pool: a net_buf pool (absent when `hasPool` is false)
   * with a 32-bit atomic counter.
   */
  class PacketPool {
    const hasPool: bool
    const userDataSize: nat
    var counter: nat

    constructor (hasPool: bool, userDataSize: nat)
      ensures this.hasPool == hasPool && this.userDataSize == userDataSize && counter == 0
    {
      this.hasPool := hasPool;
      this.userDataSize := userDataSize;
      counter := 0;
    }
  }

  /**
   * weave_packet_alloc_with_id as a function of the pool counter: the new
   * buffer's user data and the counter afterwards. Only a pool whose user
   * data can hold the record gets a record (and its counter advanced); the
   * record is the id, client 0, the counter before the increment cut to 16
   * bits, and the tick clock cut to 32 bits.
   */
  function AllocWithId(h: NB.Heap, counter: nat, pool: Option<(bool, nat)>, packetId: byte,
                       stale: seq<byte>, exhausted: bool, ticks: nat): (r: (Option<BufId>, NB.Heap, nat))
    requires NB.Valid(h) && counter < U32_LIMIT && (pool.Some? ==> |stale| == pool.value.1)
    ensures NB.Valid(r.1) && r.2 < U32_LIMIT && Live(r.1, r.0)
    ensures r.0.None? <==> pool.None? || !pool.value.0 || exhausted
    ensures r.0.None? ==> r.1 == h && r.2 == counter
    ensures r.0.Some? ==> (r.0.value == h.next && r.0.value in r.1.bufs
      && r.1.bufs - {r.0.value} == h.bufs && r.1.bufs[r.0.value].ref == 1
      && r.1.bufs[r.0.value].data == [] && r.1.bufs[r.0.value].frag.None?
      && |r.1.bufs[r.0.value].userData| == pool.value.1)
    ensures r.0.Some? && pool.value.1 >= META_SIZE ==>
      r.2 == (counter + 1) % U32_LIMIT
      && DecodeMeta(r.1.bufs[r.0.value].userData) == Meta(packetId, 0, counter % U16_LIMIT, Trunc(ticks, 4))
    ensures r.0.Some? && pool.value.1 < META_SIZE ==>
      r.2 == counter && r.1.bufs[r.0.value].userData == stale
  {
    if pool.None? || !pool.value.0 || exhausted then (None, h, counter)
    else
      var (h1, id) := NB.Alloc(h, stale);
      if pool.value.1 >= META_SIZE then
        var m := Meta(packetId, 0, counter % U16_LIMIT, Trunc(ticks, 4));
        var ud := EncodeMeta(m) + stale[META_SIZE..];
        DecodeEncodeMeta(m, stale[META_SIZE..]);
        assert h1.bufs[id := h1.bufs[id].(userData := ud)] - {id} == h.bufs;
        (Some(id), NB.SetUserData(h1, id, ud), (counter + 1) % U32_LIMIT)
      else
        assert h1.bufs - {id} == h.bufs;
        (Some(id), h1, counter)
  }

  /** weave_packet_alloc: allocation with the id ID_ANY. */
  function Alloc(h: NB.Heap, counter: nat, pool: Option<(bool, nat)>, stale: seq<byte>,
                 exhausted: bool, ticks: nat): (r: (Option<BufId>, NB.Heap, nat))
    requires NB.Valid(h) && counter < U32_LIMIT && (pool.Some? ==> |stale| == pool.value.1)
    ensures Live(r.1, r.0)
    ensures r.0.Some? && pool.Some? && pool.value.1 >= META_SIZE ==>
      GetMeta(r.1, r.0).Some? && GetMeta(r.1, r.0).value.packetId == ID_ANY
  {
    AllocWithId(h, counter, pool, ID_ANY, stale, exhausted, ticks)
  }

  /** Two successful allocations in a row from a pool with metadata get consecutive 16-bit counters. */
  lemma SuccessiveCounters(h: NB.Heap, counter: nat, uds: nat, id1: byte, id2: byte,
                           stale1: seq<byte>, stale2: seq<byte>, t1: nat, t2: nat)
    requires NB.Valid(h) && counter < U32_LIMIT && uds >= META_SIZE && |stale1| == uds && |stale2| == uds
    ensures var (b1, h1, c1) := AllocWithId(h, counter, Some((true, uds)), id1, stale1, false, t1);
      var (b2, h2, c2) := AllocWithId(h1, c1, Some((true, uds)), id2, stale2, false, t2);
      b1.Some? && b2.Some? && b1.value != b2.value
      && DecodeMeta(h2.bufs[b2.value].userData).counter
         == (DecodeMeta(h1.bufs[b1.value].userData).counter + 1) % U16_LIMIT
  {
    var c1 := (counter + 1) % U32_LIMIT;
    assert c1 % U16_LIMIT == (counter % U16_LIMIT + 1) % U16_LIMIT;
  }

  /**
   * The method the firmware calls: the pool's counter is advanced in place
   * and the buffer comes out of the heap.
   */
  method AllocWithIdFrom(net: Net, pool: PacketPool?, packetId: byte, stale: seq<byte>,
                         exhausted: bool, ticks: nat) returns (buf: Option<BufId>)
    requires net.Ok() && (pool != null ==> pool.counter < U32_LIMIT && |stale| == pool.userDataSize)
    modifies net, pool
    ensures net.Ok() && net.sent == old(net.sent)
    ensures pool == null ==> buf.None? && net.heap == old(net.heap)
    ensures pool != null ==>
      (buf, net.heap, pool.counter)
      == AllocWithId(old(net.heap), old(pool.counter), Some((pool.hasPool, pool.userDataSize)),
                     packetId, stale, exhausted, ticks)
  {
    if pool == null || !pool.hasPool {
      return None;
    }
    if exhausted {
      return None;
    }
    var id := net.Alloc(stale);
    if pool.userDataSize >= META_SIZE {
      var m := Meta(packetId, 0, pool.counter % U16_LIMIT, Trunc(ticks, 4));
      net.SetUserData(id, EncodeMeta(m) + stale[META_SIZE..]);
      pool.counter := (pool.counter + 1) % U32_LIMIT;
    }
    return Some(id);
  }

  /** weave_packet_set_* / *_update_timestamp on the heap in place. */
  method SetField(net: Net, buf: Option<BufId>, f: Field, v: nat) returns (ret: int)
    requires net.Ok() && Live(net.heap, buf) && v < Pow256(Width(f))
    modifies net
    ensures net.Ok() && (ret, net.heap) == Set(old(net.heap), buf, f, v) && net.sent == old(net.sent)
  {
    var meta := GetMeta(net.heap, buf);
    if meta.None? {
      return -EINVAL;
    }
    var ud := net.heap.bufs[buf.value].userData;
    net.SetUserData(buf.value, Splice(ud, Offset(f), EncodeLE(v, Width(f))));
    return 0;
  }

  /**
   * weave_packet_send_ref and weave_packet_send: the chain goes to the
   * source's sinks (weave_source_emit; the count it returns is EmitTo's in
   * WeaveCore); send then releases the caller's reference, send_ref keeps it.
   */
  method Send(net: Net, buf: BufId, consume: bool)
    requires net.Ok() && buf in net.heap.bufs
    modifies net
    ensures net.Ok()
    ensures net.sent == old(net.sent) + [NB.Snapshot(old(net.heap), buf)]
    ensures net.heap == if consume then NB.Unref(old(net.heap), buf) else old(net.heap)
  {
    net.Emit(buf);
    if consume {
      net.Unref(buf);
    }
  }
}

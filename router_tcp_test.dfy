// The IoTSense framing used by the router sample's TCP test client: the
// 4-byte header `<BBH`(version, packet_id, payload_len) in front of the
// payload, `pack`/`unpack`, and the receive thread's reassembly loop, which
// takes complete packets off the front of a growing byte buffer.
module RouterTcpTest {
  import opened Bytes
  import opened Wrappers

  const IOTSENSE_VERSION: int := 0x01
  const HEADER_SIZE: nat := 4
  const MAX_PAYLOAD: nat := 65535
  const PKT_ID_SENSOR_TEMP: int := 0x01
  const PKT_ID_ACTUATOR_LED: int := 0x02
  const PKT_ID_SYSTEM_CONFIG: int := 0x09

  /** A packet object; its fields are plain Python ints and may be set to anything. */
  datatype IoTSensePacket = IoTSensePacket(version: int, packetId: int, payloadLen: int, payload: seq<byte>)

  /** IoTSensePacket(packet_id, payload): version 1 and the payload's own length. */
  function NewPacket(packetId: int, payload: seq<byte>): (p: IoTSensePacket)
    ensures p.version == IOTSENSE_VERSION && p.packetId == packetId
    ensures p.payloadLen == |payload| && p.payload == payload
  {
    IoTSensePacket(IOTSENSE_VERSION, packetId, |payload|, payload)
  }

  /** The two exceptions `pack` can raise: its own ValueError, and struct.error for a field out of range. */
  datatype PackError = PayloadTooLong | StructRange

  /** A packet whose header fields fit their struct codes and agree with its payload. */
  predicate WellFormed(p: IoTSensePacket) {
    Packable(p) && p.payloadLen == |p.payload|
  }

  function Header(version: byte, packetId: byte, payloadLen: nat): (h: seq<byte>)
    requires payloadLen <= MAX_PAYLOAD
    ensures |h| == HEADER_SIZE
  {
    [version, packetId] + EncodeLE(payloadLen, 2)
  }

  /** pack(): the header built from the packet's own fields, then the payload as it is. */
  function Pack(p: IoTSensePacket): (r: Result<seq<byte>, PackError>)
    ensures r == Err(PayloadTooLong) <==> p.payloadLen > MAX_PAYLOAD
    ensures r.Ok? <==> 0 <= p.version < 256 && 0 <= p.packetId < 256 && 0 <= p.payloadLen <= MAX_PAYLOAD
    ensures r.Ok? ==> (|r.value| == HEADER_SIZE + |p.payload|
      && r.value[0] == p.version && r.value[1] == p.packetId
      && ReadLE(r.value, 2, 2) == p.payloadLen && r.value[HEADER_SIZE..] == p.payload)
  {
    if p.payloadLen > MAX_PAYLOAD then Err(PayloadTooLong)
    else if !(0 <= p.version < 256 && 0 <= p.packetId < 256 && 0 <= p.payloadLen) then Err(StructRange)
    else Ok(Wire(p))
  }

  predicate Packable(p: IoTSensePacket) {
    0 <= p.version < 256 && 0 <= p.packetId < 256 && 0 <= p.payloadLen <= MAX_PAYLOAD
  }

  /** The bytes `pack` emits for a packet whose fields fit. */
  function Wire(p: IoTSensePacket): (w: seq<byte>)
    requires Packable(p)
    ensures |w| == HEADER_SIZE + |p.payload| && w[0] == p.version && w[1] == p.packetId
    ensures ReadLE(w, 2, 2) == p.payloadLen && w[HEADER_SIZE..] == p.payload
  {
    var h := Header(p.version, p.packetId, p.payloadLen);
    DecodeEncodeLE(p.payloadLen, 2);
    assert (h + p.payload)[2..4] == EncodeLE(p.payloadLen, 2);
    h + p.payload
  }

  /**
   * unpack(data): None below 4 bytes; otherwise a packet carrying the header
   * fields, whose payload is filled in only when all of it is present.
   */
  function Unpack(data: seq<byte>): (r: Option<IoTSensePacket>)
    ensures r.None? <==> |data| < HEADER_SIZE
    ensures r.Some? ==> (r.value.version == data[0] && r.value.packetId == data[1]
      && r.value.payloadLen == ReadLE(data, 2, 2)
      && r.value.payload == (if |data| >= HEADER_SIZE + r.value.payloadLen
                             then data[HEADER_SIZE..HEADER_SIZE + r.value.payloadLen] else []))
  {
    if |data| < HEADER_SIZE then None
    else
      var len := ReadLE(data, 2, 2);
      var payload := if |data| >= HEADER_SIZE + len then data[HEADER_SIZE..HEADER_SIZE + len] else [];
      Some(IoTSensePacket(data[0], data[1], len, payload))
  }

  /** unpack reads only the bytes of the packet it returns. */
  lemma UnpackPrefix(data: seq<byte>, more: seq<byte>)
    requires |data| >= HEADER_SIZE && |data| >= HEADER_SIZE + ReadLE(data, 2, 2)
    ensures Unpack(data + more) == Unpack(data)
  {
    assert (data + more)[2..4] == data[2..4];
    var len := ReadLE(data, 2, 2);
    assert (data + more)[HEADER_SIZE..HEADER_SIZE + len] == data[HEADER_SIZE..HEADER_SIZE + len];
  }

  /** Round trip: unpacking a packed well-formed packet, even with bytes after it, gives it back. */
  lemma UnpackPack(p: IoTSensePacket, more: seq<byte>)
    requires WellFormed(p)
    ensures Pack(p).Ok? && Unpack(Pack(p).value + more) == Some(p)
  {
    UnpackPrefix(Wire(p), more);
  }

  /** The bytes a complete unpacked packet came from are exactly its packing: nothing is lost. */
  lemma PackUnpack(data: seq<byte>)
    requires |data| >= HEADER_SIZE && |data| >= HEADER_SIZE + ReadLE(data, 2, 2)
    ensures WellFormed(Unpack(data).value)
    ensures Wire(Unpack(data).value) == data[..HEADER_SIZE + ReadLE(data, 2, 2)]
  {
    var p := Unpack(data).value;
    var w := Wire(p);
    var n := HEADER_SIZE + p.payloadLen;
    EncodeDecodeLE(data[2..4]);
    assert w[2..4] == data[2..4];
    assert w == data[..n];
  }

  // ----- reassembly -----

  /**
   * What the receive loop's inner while does to a buffer: the complete
   * packets at its front, in order ...
   */
  function Packets(buf: seq<byte>): (r: seq<IoTSensePacket>)
    decreases |buf|
  {
    if |buf| < HEADER_SIZE then []
    else if |buf| >= FrameSize(buf) then [Unpack(buf).value] + Packets(buf[FrameSize(buf)..])
    else []
  }

  /** ... and the bytes it leaves behind. */
  function Leftover(buf: seq<byte>): (r: seq<byte>)
    decreases |buf|
  {
    if |buf| < HEADER_SIZE then buf
    else if |buf| >= FrameSize(buf) then Leftover(buf[FrameSize(buf)..])
    else buf
  }

  /** The size of the packet whose header starts the buffer: header plus declared payload. */
  function FrameSize(buf: seq<byte>): (n: nat)
    requires |buf| >= HEADER_SIZE
    ensures n >= HEADER_SIZE
  {
    HEADER_SIZE + ReadLE(buf, 2, 2)
  }

  /** A buffer the loop cannot take anything from: under 4 bytes, or one packet's incomplete prefix. */
  predicate Stalled(buf: seq<byte>) {
    |buf| < HEADER_SIZE || |buf| < HEADER_SIZE + ReadLE(buf, 2, 2)
  }

  function Serialize(ps: seq<IoTSensePacket>): (r: seq<byte>)
    requires forall i :: 0 <= i < |ps| ==> WellFormed(ps[i])
  {
    if |ps| == 0 then [] else assert WellFormed(ps[0]); Wire(ps[0]) + Serialize(ps[1..])
  }

  /** Every packet the loop takes off is well-formed: its length field matches its payload. */
  lemma {:induction false} ReassembleWellFormed(buf: seq<byte>)
    ensures forall i :: 0 <= i < |Packets(buf)| ==> WellFormed(Packets(buf)[i])
    decreases |buf|
  {
    if |buf| >= HEADER_SIZE && |buf| >= FrameSize(buf) {
      PackUnpack(buf);
      ReassembleWellFormed(buf[FrameSize(buf)..]);
      ReassembleStep(buf);
    }
  }

  /** What the loop leaves is stalled: it stops only when nothing more can be taken. */
  lemma {:induction false} ReassembleStalls(buf: seq<byte>)
    ensures Stalled(Leftover(buf))
    decreases |buf|
  {
    if |buf| >= HEADER_SIZE && |buf| >= FrameSize(buf) {
      ReassembleStalls(buf[FrameSize(buf)..]);
      ReassembleStep(buf);
    }
  }

  /**
   * Exact byte accounting: the buffer is the packing of the packets taken
   * off it followed by what is left, so no byte is ever skipped or dropped.
   */
  lemma {:induction false} ReassembleAccounts(buf: seq<byte>)
    ensures forall i :: 0 <= i < |Packets(buf)| ==> WellFormed(Packets(buf)[i])
    ensures buf == Serialize(Packets(buf)) + Leftover(buf)
    decreases |buf|
  {
    ReassembleWellFormed(buf);
    if |buf| >= HEADER_SIZE && |buf| >= FrameSize(buf) {
      var tail := buf[FrameSize(buf)..];
      ReassembleAccounts(tail);
      AccountsStep(buf);
    }
  }

  lemma AccountsStep(buf: seq<byte>)
    requires |buf| >= HEADER_SIZE && |buf| >= FrameSize(buf)
    requires forall i :: 0 <= i < |Packets(buf)| ==> WellFormed(Packets(buf)[i])
    requires forall i :: 0 <= i < |Packets(buf[FrameSize(buf)..])| ==> WellFormed(Packets(buf[FrameSize(buf)..])[i])
    requires buf[FrameSize(buf)..] == Serialize(Packets(buf[FrameSize(buf)..])) + Leftover(buf[FrameSize(buf)..])
    ensures buf == Serialize(Packets(buf)) + Leftover(buf)
  {
    var size := FrameSize(buf);
    var tail := buf[size..];
    ReassembleStep(buf);
    PackUnpack(buf);
    SerializeCons(Packets(buf));
    assert buf == buf[..size] + tail;
    ConcatStep(buf, Wire(Unpack(buf).value), tail, Serialize(Packets(tail)), Leftover(tail), Serialize(Packets(buf)));
  }

  lemma SerializeCons(ps: seq<IoTSensePacket>)
    requires |ps| > 0 && forall i :: 0 <= i < |ps| ==> WellFormed(ps[i])
    ensures Serialize(ps) == Wire(ps[0]) + Serialize(ps[1..])
  {
  }

  /** One step of the loop: a complete head packet is taken off and the rest parsed. */
  lemma ReassembleStep(buf: seq<byte>)
    requires |buf| >= HEADER_SIZE && |buf| >= FrameSize(buf)
    ensures Packets(buf) == [Unpack(buf).value] + Packets(buf[FrameSize(buf)..])
    ensures Leftover(buf) == Leftover(buf[FrameSize(buf)..])
  {
  }

  /** Packing well-formed packets and feeding the bytes to the loop yields the packets back, in order. */
  lemma {:induction false} ReassembleSerialize(ps: seq<IoTSensePacket>, tail: seq<byte>)
    requires forall i :: 0 <= i < |ps| ==> WellFormed(ps[i])
    requires Stalled(tail)
    ensures Packets(Serialize(ps) + tail) == ps && Leftover(Serialize(ps) + tail) == tail
  {
    if |ps| > 0 {
      var p := ps[0];
      assert WellFormed(p);
      var w := Wire(p);
      var rest := Serialize(ps[1..]) + tail;
      var buf := w + rest;
      assert Serialize(ps) + tail == buf;
      assert |buf| >= FrameSize(buf) == |w| && buf[FrameSize(buf)..] == rest && Unpack(buf) == Some(p) by {
        UnpackPack(p, rest);
        assert buf[2..4] == w[2..4];
      }
      ReassembleStep(buf);
      ReassembleSerialize(ps[1..], tail);
      assert [p] + ps[1..] == ps;
    } else {
      assert Serialize(ps) + tail == tail;
    }
  }

  /**
   * Chunking does not matter: parsing after each received chunk takes off
   * the same packets, and leaves the same bytes, as parsing everything at once.
   */
  lemma {:induction false} ReassembleIncremental(x: seq<byte>, y: seq<byte>)
    ensures Packets(x + y) == Packets(x) + Packets(Leftover(x) + y)
    ensures Leftover(x + y) == Leftover(Leftover(x) + y)
    decreases |x|
  {
    if |x| >= HEADER_SIZE && |x| >= FrameSize(x) {
      var t := x[FrameSize(x)..];
      ReassembleIncremental(t, y);
      PrefixStep(x, y);
      AppendAssoc([Unpack(x).value], Packets(t), Packets(Leftover(t) + y));
    } else {
      StalledFixed(x);
      assert [] + Packets(x + y) == Packets(x + y);
    }
  }

  /** A complete packet at the front of `x` is also the first packet taken off `x + y`. */
  lemma PrefixStep(x: seq<byte>, y: seq<byte>)
    requires |x| >= HEADER_SIZE && |x| >= FrameSize(x)
    ensures Packets(x + y) == [Unpack(x).value] + Packets(x[FrameSize(x)..] + y)
    ensures Leftover(x + y) == Leftover(x[FrameSize(x)..] + y)
    ensures Packets(x) == [Unpack(x).value] + Packets(x[FrameSize(x)..])
    ensures Leftover(x) == Leftover(x[FrameSize(x)..])
  {
    var size := FrameSize(x);
    assert (x + y)[2..4] == x[2..4];
    UnpackPrefix(x, y);
    assert (x + y)[size..] == x[size..] + y;
    ReassembleStep(x + y);
  }

  /** A stalled buffer is left as it is. */
  lemma StalledFixed(buf: seq<byte>)
    requires Stalled(buf)
    ensures Packets(buf) == [] && Leftover(buf) == buf
  {
  }

  /** What a socket's recv(4096) can produce: data (b"" at end of stream), a timeout, or another error. */
  datatype RecvEvent = Data(bytes: seq<byte>) | Timeout | Failure

  /** The bytes the receive thread appends to its buffer before it stops. */
  function StreamBytes(events: seq<RecvEvent>): (r: seq<byte>)
  {
    if |events| == 0 then []
    else match events[0]
      case Timeout => StreamBytes(events[1..])
      case Failure => []
      case Data(d) => if |d| == 0 then [] else d + StreamBytes(events[1..])
  }

  /** Splitting a sequence in front of a split of its tail. */
  lemma ConcatStep<T>(all: seq<T>, w: seq<T>, tail: seq<T>, s: seq<T>, rest: seq<T>, ws: seq<T>)
    requires all == w + tail && tail == s + rest && ws == w + s
    ensures all == ws + rest
  {
    AppendAssoc(w, s, rest);
  }

  lemma AppendAssoc<T>(a: seq<T>, b: seq<T>, c: seq<T>)
    ensures (a + b) + c == a + (b + c)
  {
  }

  /** How the stream continues from event i on. */
  lemma StreamBytesAt(events: seq<RecvEvent>, i: nat)
    requires i < |events|
    ensures StreamBytes(events[i..]) == match events[i]
      case Timeout => StreamBytes(events[i + 1..])
      case Failure => []
      case Data(d) => if |d| == 0 then [] else d + StreamBytes(events[i + 1..])
  {
    assert events[i..][1..] == events[i + 1..];
  }

  /** The test's TCPClient, reduced to what the receive thread updates. */
  class TcpClient {
    var receivedPackets: seq<IoTSensePacket>

    constructor ()
      ensures receivedPackets == []
    {
      receivedPackets := [];
    }

    /** The inner `while len(buffer) >= 4` loop of `_receive_loop`. */
    method ParseBuffer(buffer0: seq<byte>) returns (buffer: seq<byte>)
      modifies this
      ensures receivedPackets == old(receivedPackets) + Packets(buffer0)
      ensures buffer == Leftover(buffer0)
    {
      buffer := buffer0;
      while |buffer| >= HEADER_SIZE
        invariant receivedPackets + Packets(buffer) == old(receivedPackets) + Packets(buffer0)
        invariant Leftover(buffer) == Leftover(buffer0)
        decreases |buffer|
      {
        var packet := Unpack(buffer);
        if packet.Some? {
          var packetSize := HEADER_SIZE + packet.value.payloadLen;
          if |buffer| >= packetSize {
            var before := buffer;
            buffer := buffer[packetSize..];
            AppendAssoc(receivedPackets, [packet.value], Packets(buffer));
            receivedPackets := receivedPackets + [packet.value];
            assert Packets(before) == [packet.value] + Packets(buffer);
          } else {
            break;
          }
        } else {
          // The skip-one-byte branch: unpack only fails below 4 bytes.
          assert false;
        }
      }
    }

    /**
     * `_receive_loop`: append each chunk to the buffer and parse; skip
     * timeouts; stop at end of stream or an error. Returns the unparsed rest.
     */
    method ReceiveLoop(events: seq<RecvEvent>) returns (buffer: seq<byte>)
      modifies this
      ensures receivedPackets == old(receivedPackets) + Packets(StreamBytes(events))
      ensures buffer == Leftover(StreamBytes(events))
    {
      buffer := [];
      ghost var seen: seq<byte> := [];
      ghost var start := receivedPackets;
      var i := 0;
      assert events[i..] == events;
      while i < |events|
        invariant 0 <= i <= |events|
        invariant StreamBytes(events) == seen + StreamBytes(events[i..])
        invariant receivedPackets == start + Packets(seen)
        invariant buffer == Leftover(seen)
        decreases |events| - i
      {
        StreamBytesAt(events, i);
        var data: seq<byte> := [];
        var stop := false;
        match events[i] {
          case Timeout =>
          case Failure => stop := true;
          case Data(d) => data := d; stop := |d| == 0;
        }
        if stop {
          assert seen + [] == seen;
          return;
        }
        ghost var later := StreamBytes(events[i + 1..]);
        assert StreamBytes(events[i..]) == data + later;
        AppendAssoc(seen, data, later);
        ghost var before := receivedPackets;
        ghost var prior := Packets(seen);
        ghost var taken := Packets(buffer + data);
        buffer := ParseBuffer(buffer + data);
        ghost var next := seen + data;
        assert Packets(next) == prior + taken && Leftover(next) == buffer by {
          ReassembleIncremental(seen, data);
        }
        calc {
          receivedPackets;
          before + taken;
          (start + prior) + taken;
          { AppendAssoc(start, prior, taken); }
          start + (prior + taken);
          start + Packets(next);
        }
        seen := next;
        i := i + 1;
      }
      assert events[i..] == [];
      assert seen + [] == seen;
    }

    /** get_packets_by_id: the received packets carrying that id. */
    function GetPacketsById(packetId: int): (r: seq<IoTSensePacket>)
      reads this
      ensures forall p :: p in r <==> p in receivedPackets && p.packetId == packetId
    {
      WithId(receivedPackets, packetId)
    }
  }

  /** The list comprehension `[p for p in ps if p.packet_id == id]`. */
  function WithId(ps: seq<IoTSensePacket>, packetId: int): (r: seq<IoTSensePacket>)
    ensures |r| <= |ps|
    ensures forall p :: p in r <==> p in ps && p.packetId == packetId
  {
    if |ps| == 0 then []
    else (if ps[0].packetId == packetId then [ps[0]] else []) + WithId(ps[1..], packetId)
  }

  /** The filter keeps receipt order: it distributes over concatenation. */
  lemma {:induction false} WithIdAppend(ps: seq<IoTSensePacket>, qs: seq<IoTSensePacket>, packetId: int)
    ensures WithId(ps + qs, packetId) == WithId(ps, packetId) + WithId(qs, packetId)
  {
    if |ps| > 0 {
      assert (ps + qs)[0] == ps[0];
      assert (ps + qs)[1..] == ps[1..] + qs;
      WithIdAppend(ps[1..], qs, packetId);
      var h := if ps[0].packetId == packetId then [ps[0]] else [];
      assert WithId(ps + qs, packetId) == h + WithId(ps[1..] + qs, packetId);
      assert WithId(ps, packetId) == h + WithId(ps[1..], packetId);
    } else {
      assert ps + qs == qs;
    }
  }
}

// The packet_io router demo client: `create_packet` builds the same 4-byte
// IoTSense header, and `receive_packets` / `receive_temperature_data` walk a
// single received chunk with an offset, skipping one byte whenever the
// version byte is wrong and dropping an incomplete tail.
module TcpClientDemo {
  import opened Bytes
  import opened Wrappers

  const IOTSENSE_VERSION: int := 0x01
  const HEADER_SIZE: nat := 4
  const PKT_ID_SENSOR_TEMP: int := 0x01

  /** create_packet: None stands for the struct.error raised when the id or the length does not fit. */
  function CreatePacket(packetId: int, payload: seq<byte>): (r: Option<seq<byte>>)
    ensures r.Some? <==> 0 <= packetId < 256 && |payload| <= 65535
    ensures r.Some? ==> (|r.value| == HEADER_SIZE + |payload| && r.value[0] == IOTSENSE_VERSION
      && r.value[1] == packetId && ReadLE(r.value, 2, 2) == |payload| && r.value[HEADER_SIZE..] == payload)
  {
    if 0 <= packetId < 256 && |payload| <= 65535 then
      DecodeEncodeLE(|payload|, 2);
      var w := [IOTSENSE_VERSION, packetId] + EncodeLE(|payload|, 2) + payload;
      assert w[2..4] == EncodeLE(|payload|, 2);
      Some(w)
    else None
  }

  /** One entry of the returned list: {'id', 'payload', 'size'}. */
  datatype DemoPacket = DemoPacket(id: byte, payload: seq<byte>, size: nat)

  /** What the offset loop collects from `data`, starting at `offset`. */
  function Scan(data: seq<byte>, offset: nat): (r: seq<DemoPacket>)
    ensures forall p :: p in r ==> p.size == HEADER_SIZE + |p.payload|
    decreases |data| - offset
  {
    if offset + HEADER_SIZE > |data| then []
    else if data[offset] != IOTSENSE_VERSION then Scan(data, offset + 1)
    else
      var total := HEADER_SIZE + ReadLE(data, offset + 2, 2);
      if offset + total <= |data| then
        [DemoPacket(data[offset + 1], data[offset + HEADER_SIZE..offset + total], total)] + Scan(data, offset + total)
      else []
  }

  /**
   * Every packet the loop returns is complete: its payload is exactly as
   * long as its header said, and all packets together use no more bytes
   * than there are after the offset.
   */
  lemma {:induction false} ScanPacketsComplete(data: seq<byte>, offset: nat)
    requires offset <= |data|
    ensures forall p :: p in Scan(data, offset) ==> p.size == HEADER_SIZE + |p.payload|
    ensures TotalSize(Scan(data, offset)) <= |data| - offset
    decreases |data| - offset
  {
    if offset + HEADER_SIZE <= |data| {
      if data[offset] != IOTSENSE_VERSION {
        ScanPacketsComplete(data, offset + 1);
      } else {
        var total := HEADER_SIZE + ReadLE(data, offset + 2, 2);
        if offset + total <= |data| {
          ScanPacketsComplete(data, offset + total);
          var rest := Scan(data, offset + total);
          var p := DemoPacket(data[offset + 1], data[offset + HEADER_SIZE..offset + total], total);
          assert ([p] + rest)[1..] == rest;
          assert Scan(data, offset) == [p] + rest;
          assert TotalSize([p] + rest) == total + TotalSize(rest);
        }
      }
    }
  }

  function TotalSize(ps: seq<DemoPacket>): nat
  {
    if |ps| == 0 then 0 else ps[0].size + TotalSize(ps[1..])
  }

  /** A wrong version byte costs exactly one byte: parsing resumes at the next offset. */
  lemma ScanSkipsBadVersion(data: seq<byte>, offset: nat)
    requires offset + HEADER_SIZE <= |data| && data[offset] != IOTSENSE_VERSION
    ensures Scan(data, offset) == Scan(data, offset + 1)
  {
  }

  /** An incomplete packet ends the parse: nothing after it is looked at. */
  lemma ScanStopsAtIncomplete(data: seq<byte>, offset: nat)
    requires offset + HEADER_SIZE <= |data| && data[offset] == IOTSENSE_VERSION
    requires offset + HEADER_SIZE + ReadLE(data, offset + 2, 2) > |data|
    ensures Scan(data, offset) == []
  {
  }

  /** Scanning is position-independent: bytes in front of the offset are never read. */
  lemma {:induction false} ScanShift(prefix: seq<byte>, data: seq<byte>, offset: nat)
    ensures Scan(prefix + data, |prefix| + offset) == Scan(data, offset)
    decreases |data| - offset
  {
    var whole := prefix + data;
    var k := |prefix| + offset;
    if offset + HEADER_SIZE <= |data| {
      assert whole[k] == data[offset];
      assert whole[k + 2..k + 4] == data[offset + 2..offset + 4];
      if data[offset] != IOTSENSE_VERSION {
        ScanShift(prefix, data, offset + 1);
      } else {
        var total := HEADER_SIZE + ReadLE(data, offset + 2, 2);
        if offset + total <= |data| {
          assert whole[k + 1] == data[offset + 1];
          assert whole[k + HEADER_SIZE..k + total] == data[offset + HEADER_SIZE..offset + total];
          ScanShift(prefix, data, offset + total);
        }
      }
    }
  }

  /** Round trip: a chunk that starts with a created packet yields that packet first. */
  lemma ScanCreatePacket(packetId: int, payload: seq<byte>, rest: seq<byte>)
    requires 0 <= packetId < 256 && |payload| <= 65535
    ensures var w := CreatePacket(packetId, payload).value;
      Scan(w + rest, 0) == [DemoPacket(packetId, payload, HEADER_SIZE + |payload|)] + Scan(rest, 0)
  {
    var w := CreatePacket(packetId, payload).value;
    var data := w + rest;
    assert data[0] == IOTSENSE_VERSION && data[1] == packetId;
    assert data[2..4] == w[2..4];
    assert data[HEADER_SIZE..|w|] == payload;
    ScanShift(w, rest, 0);
  }

  /** What `recv(1024)` produced: data (b"" when the peer closed), a timeout, or another error. */
  datatype RecvEvent = Data(bytes: seq<byte>) | Timeout | Failure

  function Received(event: RecvEvent): (d: seq<byte>)
  {
    if event.Data? then event.bytes else []
  }

  /**
   * receive_packets: one recv, then the offset loop over that chunk alone.
   * The result is the scan of the chunk; a timeout or error gives [].
   */
  method ReceivePackets(event: RecvEvent) returns (packets: seq<DemoPacket>)
    ensures packets == Scan(Received(event), 0)
  {
    packets := [];
    if !event.Data? || |event.bytes| == 0 {
      return;
    }
    var data := event.bytes;
    var offset := 0;
    while offset + HEADER_SIZE <= |data|
      invariant offset <= |data|
      invariant packets + Scan(data, offset) == Scan(data, 0)
      decreases |data| - offset
    {
      var ver := data[offset];
      var pktId := data[offset + 1];
      var payloadLen := ReadLE(data, offset + 2, 2);
      if ver != IOTSENSE_VERSION {
        offset := offset + 1;
        continue;
      }
      var totalSize := HEADER_SIZE + payloadLen;
      if offset + totalSize <= |data| {
        var payload := data[offset + HEADER_SIZE..offset + totalSize];
        var p := DemoPacket(pktId, payload, totalSize);
        assert Scan(data, offset) == [p] + Scan(data, offset + totalSize);
        packets := packets + [p];
        offset := offset + totalSize;
      } else {
        break;
      }
    }
  }

  /** The number of packets with that id in a list. */
  function CountId(ps: seq<DemoPacket>, id: int): (n: nat)
    ensures n <= |ps|
  {
    if |ps| == 0 then 0 else (if ps[0].id == id then 1 else 0) + CountId(ps[1..], id)
  }

  /** The temperature packets found over a series of recv calls, up to the first error. */
  function TemperatureCount(events: seq<RecvEvent>): nat
  {
    if |events| == 0 || events[0].Failure? then 0
    else CountId(Scan(Received(events[0]), 0), PKT_ID_SENSOR_TEMP) + TemperatureCount(events[1..])
  }

  lemma {:induction false} CountIdAppend(ps: seq<DemoPacket>, qs: seq<DemoPacket>, id: int)
    ensures CountId(ps + qs, id) == CountId(ps, id) + CountId(qs, id)
  {
    if |ps| == 0 {
      assert ps + qs == qs;
    } else {
      assert (ps + qs)[1..] == ps[1..] + qs;
      CountIdAppend(ps[1..], qs, id);
    }
  }

  /**
   * The offset loop of receive_temperature_data over one chunk: the number
   * of complete packets with id 0x01 that it walks past.
   */
  method CountTemperature(data: seq<byte>) returns (n: nat)
    ensures n == CountId(Scan(data, 0), PKT_ID_SENSOR_TEMP)
  {
    n := 0;
    var offset := 0;
    while offset + HEADER_SIZE <= |data|
      invariant offset <= |data|
      invariant n + CountId(Scan(data, offset), PKT_ID_SENSOR_TEMP) == CountId(Scan(data, 0), PKT_ID_SENSOR_TEMP)
      decreases |data| - offset
    {
      var ver := data[offset];
      var pktId := data[offset + 1];
      var payloadLen := ReadLE(data, offset + 2, 2);
      if ver != IOTSENSE_VERSION {
        offset := offset + 1;
        continue;
      }
      var totalSize := HEADER_SIZE + payloadLen;
      if offset + totalSize <= |data| {
        var p := DemoPacket(pktId, data[offset + HEADER_SIZE..offset + totalSize], totalSize);
        assert Scan(data, offset) == [p] + Scan(data, offset + totalSize);
        CountIdAppend([p], Scan(data, offset + totalSize), PKT_ID_SENSOR_TEMP);
        if pktId == PKT_ID_SENSOR_TEMP {
          n := n + 1;
        }
        offset := offset + totalSize;
      } else {
        break;
      }
    }
  }

  /**
   * receive_temperature_data: the recv calls made before the deadline are
   * given as `events`; each non-empty chunk is walked like receive_packets,
   * and only complete packets with id 0x01 are counted. An error ends the loop.
   */
  method ReceiveTemperatureData(events: seq<RecvEvent>) returns (count: nat)
    ensures count == TemperatureCount(events)
  {
    count := 0;
    var i := 0;
    while i < |events|
      invariant 0 <= i <= |events|
      invariant count + TemperatureCount(events[i..]) == TemperatureCount(events)
    {
      assert events[i..][1..] == events[i + 1..];
      var ev := events[i];
      if ev.Failure? {
        return;
      }
      if ev.Data? && |ev.bytes| > 0 {
        var n := CountTemperature(ev.bytes);
        count := count + n;
      }
      i := i + 1;
    }
  }
}

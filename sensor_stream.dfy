// Reading whole sensor packets off a TCP socket, the way both Python clients
// of the packet-routing samples do it: a 14-byte header, then exactly
// content_length payload bytes, each read with recv_exact.
module SensorStream {
  import opened Bytes
  import opened Wrappers
  import opened SensorWire
  import opened PySocket
  import PyText

  const CMD_START_SAMPLING: byte := 0x01
  const CMD_STOP_SAMPLING: byte := 0x02

  /** A decoded packet; the reserved header byte is dropped. */
  datatype SensorPacket = SensorPacket(packetId: nat, counter: nat, timestampNs: nat, contentLength: nat, payload: seq<byte>)

  /**
   * receive_packet on a connected socket: the header, its decode, then the
   * payload. Either read coming back None or empty gives None, so a packet
   * whose content_length is 0 is never returned.
   */
  function ReadPacket(incoming: seq<Incoming>): (r: (Option<SensorPacket>, seq<Incoming>))
    ensures r.0.Some? ==> 0 < r.0.value.contentLength == |r.0.value.payload| < U16_LIMIT
  {
    var header := ExactRead(incoming, HEADER_SIZE);
    if header.0.None? || |header.0.value| == 0 then (None, header.1)
    else
      var h := DecodeHeader(header.0.value);
      var payload := ExactRead(header.1, h.contentLength);
      if payload.0.None? || |payload.0.value| == 0 then (None, payload.1)
      else (Some(SensorPacket(h.packetId, h.counter, h.timestampNs, h.contentLength, payload.0.value)), payload.1)
  }

  /** receive_packets: up to `count` packets, stopping at the first None. */
  function ReadPackets(incoming: seq<Incoming>, count: int): (r: (seq<SensorPacket>, seq<Incoming>))
    ensures |r.0| <= if count < 0 then 0 else count
    decreases count
  {
    if count <= 0 then ([], incoming)
    else
      var p := ReadPacket(incoming);
      if p.0.None? then ([], p.1)
      else
        var more := ReadPackets(p.1, count - 1);
        ([p.0.value] + more.0, more.1)
  }

  /** One round of the receive_packets loop. */
  lemma ReadPacketsStep(incoming: seq<Incoming>, count: int)
    requires count > 0
    ensures var r := ReadPacket(incoming);
      r.0.None? ==> ReadPackets(incoming, count).0 == [] && ReadPackets(incoming, count).1 == r.1
    ensures var r := ReadPacket(incoming);
      r.0.Some? ==> (ReadPackets(incoming, count).0 == [r.0.value] + ReadPackets(r.1, count - 1).0
                     && ReadPackets(incoming, count).1 == ReadPackets(r.1, count - 1).1)
  {
  }

  /**
   * The receive_packets loop so far: reading `count` packets off `start`
   * gives the `packets` already read followed by what reading `left` more
   * off `cur` gives.
   */
  ghost predicate ReadSoFar(start: seq<Incoming>, count: int, packets: seq<SensorPacket>, cur: seq<Incoming>, left: int) {
    ReadPackets(start, count).0 == packets + ReadPackets(cur, left).0
    && ReadPackets(start, count).1 == ReadPackets(cur, left).1
  }

  lemma ReadSoFarStart(start: seq<Incoming>, count: int)
    ensures ReadSoFar(start, count, [], start, count)
  {
    assert [] + ReadPackets(start, count).0 == ReadPackets(start, count).0;
  }

  /** The loop after one more packet has been read off `cur`. */
  lemma ReadSoFarMore(start: seq<Incoming>, count: int, packets: seq<SensorPacket>, cur: seq<Incoming>, left: int, v: SensorPacket)
    requires left > 0 && ReadPacket(cur).0 == Some(v) && ReadSoFar(start, count, packets, cur, left)
    ensures ReadSoFar(start, count, packets + [v], ReadPacket(cur).1, left - 1)
  {
    ReadPacketsStep(cur, left);
    var later := ReadPackets(ReadPacket(cur).1, left - 1).0;
    assert packets + ([v] + later) == (packets + [v]) + later;
  }

  /** The loop stopping at a read that finds no packet, or after `count` of them. */
  lemma ReadSoFarDone(start: seq<Incoming>, count: int, packets: seq<SensorPacket>, cur: seq<Incoming>, left: int)
    requires ReadSoFar(start, count, packets, cur, left)
    requires left <= 0 || ReadPacket(cur).0.None?
    ensures ReadPackets(start, count).0 == packets
    ensures ReadPackets(start, count).1 == if left <= 0 then cur else ReadPacket(cur).1
  {
    if left > 0 {
      ReadPacketsStep(cur, left);
    }
    assert packets + [] == packets;
  }

  /**
   * A packet is returned exactly when the bytes available before the next
   * timeout or close hold a whole header and a non-empty payload of the
   * length it announces; the packet is those bytes decoded, and the bytes
   * after it stay available.
   */
  lemma ReadPacketAvailable(incoming: seq<Incoming>)
    ensures var r := ReadPacket(incoming);
      var avail := Available(incoming);
      if |avail| < HEADER_SIZE then r.0.None?
      else
        var h := DecodeHeader(avail[..HEADER_SIZE]);
        var end := HEADER_SIZE + h.contentLength;
        if h.contentLength > 0 && |avail| >= end then
          r.0 == Some(SensorPacket(h.packetId, h.counter, h.timestampNs, h.contentLength, avail[HEADER_SIZE..end]))
          && Available(r.1) == avail[end..]
        else r.0.None?
  {
    var avail := Available(incoming);
    ExactReadAvailable(incoming, HEADER_SIZE);
    var (header, afterHeader) := ExactRead(incoming, HEADER_SIZE);
    if |avail| >= HEADER_SIZE {
      var h := DecodeHeader(avail[..HEADER_SIZE]);
      var rest := avail[HEADER_SIZE..];
      assert Available(afterHeader) == rest;
      ExactReadAvailable(afterHeader, h.contentLength);
      if |rest| >= h.contentLength {
        assert rest[..h.contentLength] == avail[HEADER_SIZE..HEADER_SIZE + h.contentLength];
        assert rest[h.contentLength..] == avail[HEADER_SIZE + h.contentLength..];
      }
    }
  }

  /** The bytes a well-formed sender writes for a packet, reserved byte 0. */
  predicate ValidPacket(p: SensorPacket) {
    p.packetId < 256 && p.counter < U16_LIMIT && p.timestampNs < Pow256(8)
    && p.contentLength == |p.payload| && p.contentLength < U16_LIMIT
  }

  function HeaderOf(p: SensorPacket): (h: SensorHeader)
    requires ValidPacket(p)
    ensures ValidHeader(h)
  {
    Pow256Values();
    SensorHeader(p.packetId, 0, p.counter, p.contentLength, p.timestampNs)
  }

  function EncodePacket(p: SensorPacket): (r: seq<byte>)
    requires ValidPacket(p)
    ensures |r| == HEADER_SIZE + p.contentLength
  {
    EncodeHeader(HeaderOf(p)) + p.payload
  }

  function EncodePackets(ps: seq<SensorPacket>): seq<byte>
    requires forall i :: 0 <= i < |ps| ==> ValidPacket(ps[i])
  {
    if |ps| == 0 then [] else EncodePacket(ps[0]) + EncodePackets(ps[1..])
  }

  /**
   * The round trip with the firmware's encoder: a packet with a non-empty
   * payload comes back as sent; one with an empty payload comes back as
   * None, its header consumed.
   */
  lemma ReadPacketOfEncoded(p: SensorPacket, incoming: seq<Incoming>, more: seq<byte>)
    requires ValidPacket(p)
    requires Available(incoming) == EncodePacket(p) + more
    ensures var r := ReadPacket(incoming);
      (if p.contentLength > 0 then r.0 == Some(p) else r.0.None?)
      && Available(r.1) == more
  {
    var avail := Available(incoming);
    var h := HeaderOf(p);
    assert avail[..HEADER_SIZE] == EncodeHeader(h);
    DecodeEncodeHeader(h);
    ReadPacketAvailable(incoming);
    assert avail[HEADER_SIZE..HEADER_SIZE + p.contentLength] == p.payload;
    assert avail[HEADER_SIZE + p.contentLength..] == more;
    if p.contentLength == 0 {
      ExactReadAvailable(incoming, HEADER_SIZE);
      var afterHeader := ExactRead(incoming, HEADER_SIZE).1;
      assert Available(afterHeader) == avail[HEADER_SIZE..];
      ExactReadAvailable(afterHeader, 0);
    }
  }

  /** receive_packets over a stream of sent packets returns them, in order. */
  lemma {:induction false} ReadPacketsOfEncoded(ps: seq<SensorPacket>, incoming: seq<Incoming>, more: seq<byte>)
    requires forall i :: 0 <= i < |ps| ==> ValidPacket(ps[i]) && ps[i].contentLength > 0
    requires Available(incoming) == EncodePackets(ps) + more
    ensures var r := ReadPackets(incoming, |ps|);
      r.0 == ps && Available(r.1) == more
  {
    if |ps| > 0 {
      var tail := EncodePackets(ps[1..]) + more;
      assert Available(incoming) == EncodePacket(ps[0]) + tail;
      ReadPacketOfEncoded(ps[0], incoming, tail);
      var rest := ReadPacket(incoming).1;
      ReadPacketsOfEncoded(ps[1..], rest, more);
      assert [ps[0]] + ps[1..] == ps;
    }
  }

  /** sensor_name: "SENSOR" and the packet id in decimal. */
  function SensorName(p: SensorPacket): (r: string)
    ensures |r| > 6 && r[..6] == "SENSOR"
  {
    "SENSOR" + PyText.IntString(p.packetId)
  }

  /** The id can be read back from the name with int(). */
  lemma SensorNameId(p: SensorPacket)
    ensures PyText.PyInt(SensorName(p)[6..]) == Some(p.packetId as int)
  {
    assert SensorName(p)[6..] == PyText.IntString(p.packetId);
    PyText.PyIntOfIntString(p.packetId);
  }
}

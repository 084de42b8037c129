// The packet header of the basic packet-routing samples
// (packet_io/samples/basic_packet_routing/src/packet_defs.h), which the
// swift_io processor and validator share: a packed 12-byte header of
// source id, packet type, sequence number, timestamp, content length and a
// reserved field, the multi-byte fields little-endian.
module PacketDefs {
  import opened Bytes

  const HEADER_SIZE: nat := 12

  const PACKET_TYPE_DATA: byte := 0x01
  const PACKET_TYPE_CONTROL: byte := 0x02

  const SOURCE_ID_SENSOR1: byte := 1
  const SOURCE_ID_SENSOR2: byte := 2

  /** struct packet_header. */
  datatype Header = Header(sourceId: byte, packetType: byte, sequence: nat, timestamp: nat,
                           contentLength: nat, reserved: nat)

  /** Each field within its C width. */
  predicate Fits(h: Header) {
    h.sequence < U16_LIMIT && h.timestamp < U32_LIMIT && h.contentLength < U16_LIMIT && h.reserved < U16_LIMIT
  }

  function Encode(h: Header): (r: seq<byte>)
    requires Fits(h)
    ensures |r| == HEADER_SIZE && r[0] == h.sourceId && r[1] == h.packetType
  {
    Pow256Values();
    [h.sourceId, h.packetType] + EncodeLE(h.sequence, 2) + EncodeLE(h.timestamp, 4)
      + EncodeLE(h.contentLength, 2) + EncodeLE(h.reserved, 2)
  }

  /** The header a buffer's data starts with. */
  function Decode(data: seq<byte>): (h: Header)
    requires |data| >= HEADER_SIZE
    ensures Fits(h) && h.sourceId == data[0] && h.packetType == data[1]
  {
    Pow256Values();
    Header(data[0], data[1], ReadLE(data, 2, 2), ReadLE(data, 4, 4), ReadLE(data, 8, 2), ReadLE(data, 10, 2))
  }

  /** Decoding an encoded header, whatever follows it, gives the header back. */
  lemma RoundTrip(h: Header, rest: seq<byte>)
    requires Fits(h)
    ensures Decode(Encode(h) + rest) == h
  {
    Pow256Values();
    var w := Encode(h) + rest;
    assert w[2..4] == EncodeLE(h.sequence, 2);
    assert w[4..8] == EncodeLE(h.timestamp, 4);
    assert w[8..10] == EncodeLE(h.contentLength, 2);
    assert w[10..12] == EncodeLE(h.reserved, 2);
    DecodeEncodeLE(h.sequence, 2);
    DecodeEncodeLE(h.timestamp, 4);
    DecodeEncodeLE(h.contentLength, 2);
    DecodeEncodeLE(h.reserved, 2);
  }

  /** Encoding the header read from a buffer gives back the twelve bytes it was read from. */
  lemma BytesRoundTrip(data: seq<byte>)
    requires |data| >= HEADER_SIZE
    ensures Encode(Decode(data)) == data[..HEADER_SIZE]
  {
    Pow256Values();
    EncodeDecodeLE(data[2..4]);
    EncodeDecodeLE(data[4..8]);
    EncodeDecodeLE(data[8..10]);
    EncodeDecodeLE(data[10..12]);
    assert data[..HEADER_SIZE] == [data[0], data[1]] + data[2..4] + data[4..8] + data[8..10] + data[10..12];
  }
}

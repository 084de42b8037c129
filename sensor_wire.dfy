// The 14-byte sensor packet header of the packet-routing samples, written by
// the firmware's protocol module and decoded by the Python clients with
// struct format "<BBHHQ": packet_id, reserved, counter, content_length,
// timestamp_ns, packed and little-endian.
module SensorWire {
  import opened Bytes

  const HEADER_SIZE: nat := 14

  datatype SensorHeader = SensorHeader(packetId: nat, reserved: nat, counter: nat, contentLength: nat, timestampNs: nat)

  predicate ValidHeader(h: SensorHeader) {
    h.packetId < 256 && h.reserved < 256 && h.counter < U16_LIMIT && h.contentLength < U16_LIMIT
    && h.timestampNs < Pow256(8)
  }

  /** The packed in-memory image of the header struct on a little-endian target. */
  function EncodeHeader(h: SensorHeader): (r: seq<byte>)
    requires ValidHeader(h)
    ensures |r| == HEADER_SIZE
    ensures r[0] == h.packetId && r[1] == h.reserved
    ensures ReadLE(r, 2, 2) == h.counter && ReadLE(r, 4, 2) == h.contentLength && ReadLE(r, 6, 8) == h.timestampNs
  {
    Pow256Values();
    var r := [h.packetId, h.reserved] + EncodeLE(h.counter, 2) + EncodeLE(h.contentLength, 2) + EncodeLE(h.timestampNs, 8);
    assert r[2..4] == EncodeLE(h.counter, 2);
    assert r[4..6] == EncodeLE(h.contentLength, 2);
    assert r[6..14] == EncodeLE(h.timestampNs, 8);
    DecodeEncodeLE(h.counter, 2);
    DecodeEncodeLE(h.contentLength, 2);
    DecodeEncodeLE(h.timestampNs, 8);
    r
  }

  /** struct.unpack("<BBHHQ", data) on exactly 14 bytes. */
  function DecodeHeader(data: seq<byte>): (h: SensorHeader)
    requires |data| == HEADER_SIZE
    ensures ValidHeader(h)
    ensures h.packetId == data[0] && h.contentLength == ReadLE(data, 4, 2)
  {
    Pow256Values();
    SensorHeader(data[0], data[1], ReadLE(data, 2, 2), ReadLE(data, 4, 2), ReadLE(data, 6, 8))
  }

  lemma DecodeEncodeHeader(h: SensorHeader)
    requires ValidHeader(h)
    ensures DecodeHeader(EncodeHeader(h)) == h
  {
  }

  lemma EncodeDecodeHeader(data: seq<byte>)
    requires |data| == HEADER_SIZE
    ensures EncodeHeader(DecodeHeader(data)) == data
  {
    var a, b, c := data[2..4], data[4..6], data[6..14];
    EncodeDecodeLE(a);
    EncodeDecodeLE(b);
    EncodeDecodeLE(c);
    var h := DecodeHeader(data);
    assert h == SensorHeader(data[0], data[1], DecodeLE(a), DecodeLE(b), DecodeLE(c));
    assert EncodeHeader(h) == [data[0], data[1]] + a + b + c;
    assert data == [data[0], data[1]] + a + b + c;
  }
}

// A connected Python TCP socket seen from the client: what the peer has
// sent, as the chunks and timeouts recv() will meet, and what was sent to it.
module PySocket {
  import opened Bytes
  import opened Wrappers

  /** A chunk the next recv() can return (up to its size limit), or a recv() that times out. */
  datatype Incoming = Chunk(bytes: seq<byte>) | Timeout

  /**
   * recv(k) for k > 0: the first at most k bytes of the next chunk, leaving
   * the rest for later; None for socket.timeout. When nothing is left, or the
   * next chunk is empty, the peer has closed and recv returns b"" for good.
   */
  function RecvStep(incoming: seq<Incoming>, k: nat): (r: (Option<seq<byte>>, seq<Incoming>))
    requires k > 0
    ensures r.0.Some? ==> |r.0.value| <= k
  {
    if |incoming| == 0 then (Some([]), incoming)
    else match incoming[0]
      case Timeout => (None, incoming[1..])
      case Chunk(d) =>
        if |d| == 0 then (Some([]), incoming)
        else if |d| <= k then (Some(d), incoming[1..])
        else (Some(d[..k]), [Chunk(d[k..])] + incoming[1..])
  }

  /** The bytes recv() can deliver before the next timeout or the end of the stream. */
  function Available(incoming: seq<Incoming>): seq<byte>
  {
    if |incoming| == 0 then []
    else match incoming[0]
      case Timeout => []
      case Chunk(d) => if |d| == 0 then [] else d + Available(incoming[1..])
  }

  /**
   * The `while len(data) < n` loop of recv_exact, continued from the bytes
   * `acc` already collected: exactly n bytes, or None at a timeout or the end
   * of the stream; the stream afterwards is the second component.
   */
  function RecvExactFrom(incoming: seq<Incoming>, n: nat, acc: seq<byte>): (r: (Option<seq<byte>>, seq<Incoming>))
    ensures |acc| <= n && r.0.Some? ==> |r.0.value| == n && r.0.value[..|acc|] == acc
    decreases n - |acc|
  {
    if |acc| >= n then (Some(acc), incoming)
    else
      var step := RecvStep(incoming, n - |acc|);
      if step.0.None? || |step.0.value| == 0 then (None, step.1)
      else RecvExactFrom(step.1, n, acc + step.0.value)
  }

  function ExactRead(incoming: seq<Incoming>, n: nat): (r: (Option<seq<byte>>, seq<Incoming>))
    ensures r.0.Some? ==> |r.0.value| == n
  {
    RecvExactFrom(incoming, n, [])
  }

  /**
   * recv_exact gets n bytes exactly when the peer has sent at least n
   * before the next timeout or close; those bytes are the first n available,
   * and the rest stay available, in order.
   */
  lemma {:induction false} RecvExactFromAvailable(incoming: seq<Incoming>, n: nat, acc: seq<byte>)
    requires |acc| <= n
    ensures var r := RecvExactFrom(incoming, n, acc);
      var avail := Available(incoming);
      if |acc| + |avail| >= n then
        r.0 == Some(acc + avail[..n - |acc|]) && Available(r.1) == avail[n - |acc|..]
      else r.0.None?
    decreases n - |acc|
  {
    var avail := Available(incoming);
    if |acc| < n {
      var k := n - |acc|;
      var step := RecvStep(incoming, k);
      if |incoming| > 0 && incoming[0].Chunk? && |incoming[0].bytes| > 0 {
        var d := incoming[0].bytes;
        assert avail == d + Available(incoming[1..]);
        if |d| <= k {
          RecvExactFromAvailable(incoming[1..], n, acc + d);
          assert RecvExactFrom(incoming, n, acc) == RecvExactFrom(incoming[1..], n, acc + d);
          if |acc| + |avail| >= n {
            var x := Available(incoming[1..])[..k - |d|];
            assert avail[..k] == d + x;
            assert (acc + d) + x == acc + (d + x);
            assert avail[k..] == Available(incoming[1..])[k - |d|..];
          }
        } else {
          var next := [Chunk(d[k..])] + incoming[1..];
          assert next[1..] == incoming[1..];
          assert Available(next) == d[k..] + Available(incoming[1..]);
          assert avail[..k] == d[..k];
          assert avail[k..] == d[k..] + Available(incoming[1..]);
        }
      }
    } else {
      assert avail[..0] == [];
      assert acc + [] == acc;
    }
  }

  lemma ExactReadAvailable(incoming: seq<Incoming>, n: nat)
    ensures var r := ExactRead(incoming, n);
      var avail := Available(incoming);
      if |avail| >= n then r.0 == Some(avail[..n]) && Available(r.1) == avail[n..]
      else r.0.None?
  {
    RecvExactFromAvailable(incoming, n, []);
    var avail := Available(incoming);
    if |avail| >= n {
      assert [] + avail[..n] == avail[..n];
    }
  }

  class Socket {
    /** What the peer has sent and the client has not read yet. */
    var incoming: seq<Incoming>
    /** Everything the client has sent, one entry per send() call. */
    var sent: seq<seq<byte>>

    constructor (incoming: seq<Incoming>)
      ensures this.incoming == incoming && sent == []
    {
      this.incoming := incoming;
      sent := [];
    }

    method Recv(k: nat) returns (r: Option<seq<byte>>)
      requires k > 0
      modifies this`incoming
      ensures r == RecvStep(old(incoming), k).0 && incoming == RecvStep(old(incoming), k).1
    {
      var step := RecvStep(incoming, k);
      r := step.0;
      incoming := step.1;
    }

    method Send(data: seq<byte>)
      modifies this`sent
      ensures sent == old(sent) + [data]
    {
      sent := sent + [data];
    }

    /** The client-side recv_exact loop; both clients share it line for line. */
    method RecvExact(n: nat) returns (r: Option<seq<byte>>)
      modifies this`incoming
      ensures r == ExactRead(old(incoming), n).0 && incoming == ExactRead(old(incoming), n).1
    {
      var data: seq<byte> := [];
      while |data| < n
        invariant ExactRead(old(incoming), n) == RecvExactFrom(incoming, n, data)
        decreases n - |data|
      {
        var chunk := Recv(n - |data|);
        if chunk.None? || |chunk.value| == 0 {
          return None;
        }
        data := data + chunk.value;
      }
      return Some(data);
    }
  }
}

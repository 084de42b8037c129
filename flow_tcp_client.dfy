// SampleClient of the flow router sample: a TCP client that sends one-byte
// commands and reads sensor packets, counting packets and bytes received.
module FlowTcpClient {
  import opened Bytes
  import opened Wrappers
  import opened SensorWire
  import opened PySocket
  import opened SensorStream

  /** Header and payload bytes of the packets, as bytes_received counts them. */
  function BytesOf(ps: seq<SensorPacket>): (n: nat)
    ensures n >= HEADER_SIZE * |ps|
  {
    if |ps| == 0 then 0 else HEADER_SIZE + ps[0].contentLength + BytesOf(ps[1..])
  }

  lemma {:induction false} BytesOfAppend(ps: seq<SensorPacket>, qs: seq<SensorPacket>)
    ensures BytesOf(ps + qs) == BytesOf(ps) + BytesOf(qs)
  {
    if |ps| == 0 {
      assert ps + qs == qs;
    } else {
      assert (ps + qs)[1..] == ps[1..] + qs;
      BytesOfAppend(ps[1..], qs);
    }
  }

  class SampleClient {
    /** None until connect() and after disconnect(). */
    var sock: Socket?
    var connected: bool
    var packetCount: nat
    var bytesReceived: nat

    constructor ()
      ensures sock == null && !connected && packetCount == 0 && bytesReceived == 0
    {
      sock := null;
      connected := false;
      packetCount := 0;
      bytesReceived := 0;
    }

    /** connect() once the socket to the server is open. */
    method Connect(s: Socket)
      modifies this`sock, this`connected
      ensures sock == s && connected
    {
      sock := s;
      connected := true;
    }

    method Disconnect()
      modifies this`sock, this`connected
      ensures sock == null && !connected
    {
      connected := false;
      sock := null;
    }

    /**
     * send_command: False without a socket, and False when bytes([cmd])
     * raises because cmd is not a byte; otherwise the byte is sent.
     */
    method SendCommand(cmd: int) returns (ok: bool)
      modifies sock
      ensures ok <==> sock != null && 0 <= cmd < 256
      ensures sock != null ==> (sock.incoming == old(sock.incoming)
        && sock.sent == old(sock.sent) + (if ok then [[cmd]] else []))
    {
      if sock == null {
        return false;
      }
      if !(0 <= cmd < 256) {
        return false;
      }
      sock.Send([cmd]);
      return true;
    }

    method StartSampling() returns (ok: bool)
      modifies sock
      ensures ok <==> sock != null
      ensures sock != null ==> sock.sent == old(sock.sent) + [[CMD_START_SAMPLING]]
    {
      ok := SendCommand(CMD_START_SAMPLING);
    }

    method StopSampling() returns (ok: bool)
      modifies sock
      ensures ok <==> sock != null
      ensures sock != null ==> sock.sent == old(sock.sent) + [[CMD_STOP_SAMPLING]]
    {
      ok := SendCommand(CMD_STOP_SAMPLING);
    }

    /** _recv_exact, on the connected socket. */
    method RecvExact(n: nat) returns (r: Option<seq<byte>>)
      requires sock != null
      modifies sock`incoming
      ensures r == ExactRead(old(sock.incoming), n).0 && sock.incoming == ExactRead(old(sock.incoming), n).1
    {
      r := sock.RecvExact(n);
    }

    /**
     * receive_packet: None without a socket; otherwise what ReadPacket
     * finds, and on success one more packet and its 14 + content_length
     * bytes in the counters, which stay as they were on failure.
     */
    method ReceivePacket() returns (p: Option<SensorPacket>)
      modifies this`packetCount, this`bytesReceived, (if sock == null then {} else {sock})`incoming
      ensures sock == null ==> p.None?
      ensures sock != null ==> p == ReadPacket(old(sock.incoming)).0 && sock.incoming == ReadPacket(old(sock.incoming)).1
      ensures sock != null ==> sock.sent == old(sock.sent)
      ensures p.Some? ==> (packetCount == old(packetCount) + 1
        && bytesReceived == old(bytesReceived) + HEADER_SIZE + p.value.contentLength)
      ensures p.None? ==> packetCount == old(packetCount) && bytesReceived == old(bytesReceived)
    {
      if sock == null {
        return None;
      }
      var header := RecvExact(HEADER_SIZE);
      if header.None? || |header.value| == 0 {
        return None;
      }
      var h := DecodeHeader(header.value);
      var payload := RecvExact(h.contentLength);
      if payload.None? || |payload.value| == 0 {
        return None;
      }
      packetCount := packetCount + 1;
      bytesReceived := bytesReceived + HEADER_SIZE + h.contentLength;
      return Some(SensorPacket(h.packetId, h.counter, h.timestampNs, h.contentLength, payload.value));
    }

    /** receive_packets: `for _ in range(count)`, stopping at the first None. */
    method ReceivePackets(count: int) returns (packets: seq<SensorPacket>)
      modifies this`packetCount, this`bytesReceived, (if sock == null then {} else {sock})`incoming
      ensures sock == null ==> packets == []
      ensures sock != null ==> packets == ReadPackets(old(sock.incoming), count).0
      ensures sock != null ==> sock.incoming == ReadPackets(old(sock.incoming), count).1
      ensures packetCount == old(packetCount) + |packets|
      ensures bytesReceived == old(bytesReceived) + BytesOf(packets)
    {
      packets := [];
      if sock == null {
        // receive_packet returns None at once, so the first round breaks.
        return;
      }
      packets := ReceiveAll(count);
    }

    /** The receive_packets loop over an open socket. */
    method ReceiveAll(count: int) returns (packets: seq<SensorPacket>)
      requires sock != null
      modifies this`packetCount, this`bytesReceived, sock`incoming
      ensures packets == ReadPackets(old(sock.incoming), count).0
      ensures sock.incoming == ReadPackets(old(sock.incoming), count).1
      ensures packetCount == old(packetCount) + |packets|
      ensures bytesReceived == old(bytesReceived) + BytesOf(packets)
    {
      packets := [];
      var i := 0;
      ghost var start := sock.incoming;
      ReadSoFarStart(start, count);
      while i < count
        invariant 0 <= i && (count > 0 ==> i <= count)
        invariant ReadSoFar(start, count, packets, sock.incoming, count - i)
        invariant packetCount == old(packetCount) + |packets|
        invariant bytesReceived == old(bytesReceived) + BytesOf(packets)
        decreases count - i
      {
        var more;
        more, packets := ReceiveStep(start, count, packets, count - i);
        if !more {
          return;
        }
        i := i + 1;
      }
      ReadSoFarDone(start, count, packets, sock.incoming, count - i);
    }

    /**
     * One round of the receive_packets loop, `left` rounds from the end:
     * a packet read is appended and counted; a failed read ends the loop
     * with everything that reading `count` packets gives.
     */
    method ReceiveStep(ghost start: seq<Incoming>, count: int, packets: seq<SensorPacket>, left: int)
      returns (more: bool, packets': seq<SensorPacket>)
      requires sock != null && left > 0 && ReadSoFar(start, count, packets, sock.incoming, left)
      modifies this`packetCount, this`bytesReceived, sock`incoming
      ensures more ==> ReadSoFar(start, count, packets', sock.incoming, left - 1)
      ensures more ==> packetCount == old(packetCount) + 1 && |packets'| == |packets| + 1
      ensures more ==> bytesReceived == old(bytesReceived) + BytesOf(packets') - BytesOf(packets)
      ensures !more ==> packets' == packets == ReadPackets(start, count).0
      ensures !more ==> sock.incoming == ReadPackets(start, count).1
      ensures !more ==> packetCount == old(packetCount) && bytesReceived == old(bytesReceived)
    {
      ghost var cur := sock.incoming;
      var packet := ReceivePacket();
      if packet.None? {
        ReadSoFarDone(start, count, packets, cur, left);
        return false, packets;
      }
      ReadSoFarMore(start, count, packets, cur, left, packet.value);
      BytesOfAppend(packets, [packet.value]);
      assert BytesOf([packet.value]) == HEADER_SIZE + packet.value.contentLength;
      return true, packets + [packet.value];
    }
  }
}

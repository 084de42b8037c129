// PacketClient of the packet-routing sample's pytest fixtures: the same
// sensor packet protocol as the flow router's SampleClient, over a socket
// that is always connected, with no counters and no error handling around
// send.
module PacketRoutingConftest {
  import opened Bytes
  import opened Wrappers
  import opened SensorWire
  import opened PySocket
  import opened SensorStream

  class PacketClient {
    const sock: Socket

    constructor (tcpConnection: Socket)
      ensures sock == tcpConnection
    {
      sock := tcpConnection;
    }

    /**
     * send_command: bytes([cmd]) raises ValueError for a cmd that is not a
     * byte, and nothing is sent then; otherwise the single byte goes out.
     */
    method SendCommand(cmd: int) returns (valueError: bool)
      modifies sock`sent
      ensures valueError <==> !(0 <= cmd < 256)
      ensures sock.sent == old(sock.sent) + (if valueError then [] else [[cmd]])
    {
      if !(0 <= cmd < 256) {
        return true;
      }
      sock.Send([cmd]);
      return false;
    }

    method StartSampling()
      modifies sock`sent
      ensures sock.sent == old(sock.sent) + [[CMD_START_SAMPLING]]
    {
      var _ := SendCommand(CMD_START_SAMPLING);
    }

    method StopSampling()
      modifies sock`sent
      ensures sock.sent == old(sock.sent) + [[CMD_STOP_SAMPLING]]
    {
      var _ := SendCommand(CMD_STOP_SAMPLING);
    }

    method RecvExact(n: nat) returns (r: Option<seq<byte>>)
      modifies sock`incoming
      ensures r == ExactRead(old(sock.incoming), n).0 && sock.incoming == ExactRead(old(sock.incoming), n).1
    {
      r := sock.RecvExact(n);
    }

    method ReceivePacket() returns (p: Option<SensorPacket>)
      modifies sock`incoming
      ensures p == ReadPacket(old(sock.incoming)).0 && sock.incoming == ReadPacket(old(sock.incoming)).1
    {
      var header := RecvExact(HEADER_SIZE);
      if header.None? || |header.value| == 0 {
        return None;
      }
      var h := DecodeHeader(header.value);
      var payload := RecvExact(h.contentLength);
      if payload.None? || |payload.value| == 0 {
        return None;
      }
      return Some(SensorPacket(h.packetId, h.counter, h.timestampNs, h.contentLength, payload.value));
    }

    method ReceivePackets(count: int) returns (packets: seq<SensorPacket>)
      modifies sock`incoming
      ensures packets == ReadPackets(old(sock.incoming), count).0
      ensures sock.incoming == ReadPackets(old(sock.incoming), count).1
    {
      packets := [];
      var i := 0;
      ghost var start := sock.incoming;
      ReadSoFarStart(start, count);
      while i < count
        invariant 0 <= i && (count > 0 ==> i <= count)
        invariant ReadSoFar(start, count, packets, sock.incoming, count - i)
        decreases count - i
      {
        var more;
        var left := count - i;
        more, packets := ReceiveStep(start, count, packets, left);
        if !more {
          return;
        }
        assert left - 1 == count - (i + 1);
        i := i + 1;
      }
      ReadSoFarDone(start, count, packets, sock.incoming, count - i);
    }

    /**
     * One round of the receive_packets loop, `left` rounds from the end: a
     * packet read is appended; a failed read ends the loop with what
     * reading `count` packets gives.
     */
    method ReceiveStep(ghost start: seq<Incoming>, count: int, packets: seq<SensorPacket>, left: int)
      returns (more: bool, packets': seq<SensorPacket>)
      requires left > 0 && ReadSoFar(start, count, packets, sock.incoming, left)
      modifies sock`incoming
      ensures more ==> ReadSoFar(start, count, packets', sock.incoming, left - 1)
      ensures !more ==> packets' == packets == ReadPackets(start, count).0
      ensures !more ==> sock.incoming == ReadPackets(start, count).1
    {
      ghost var cur := sock.incoming;
      var packet := ReceivePacket();
      if packet.None? {
        ReadSoFarDone(start, count, packets, cur, left);
        return false, packets;
      }
      ReadSoFarMore(start, count, packets, cur, left, packet.value);
      return true, packets + [packet.value];
    }
  }
}

// The UDP fixtures of the test harness
// (scripts/pylib/pytest-test-harness/src/test_harness/fixtures/udp.py): the
// `udp:port[:bind]` fixture string, and the server the tests receive
// device datagrams on and reply through.
//
// The socket is modelled by what it holds: `inbox` is the datagrams
// waiting to be read, oldest first, and a read with an empty inbox is the
// timeout; `outbox` records what was sent and where. Binding, address
// reuse and socket errors are not modelled.
module HarnessUdp {
  import opened Wrappers
  import opened Bytes
  import opened PyText
  import HF = HarnessFixtures

  const DEFAULT_PORT: int := 4243
  const DEFAULT_BIND: string := "127.0.0.1"

  /** The bind address from_fixture uses when the fixture string names none. */
  const FIXTURE_BIND: string := "0.0.0.0"

  /** UdpConfig; its defaults are DEFAULT_PORT and DEFAULT_BIND. */
  datatype UdpConfig = UdpConfig(port: int, bindAddress: string)

  const DEFAULT_CONFIG: UdpConfig := UdpConfig(DEFAULT_PORT, DEFAULT_BIND)

  /** UdpConfig.from_fixture; None stands for the ValueError it raises. */
  function FromFixture(s: string): (r: Option<UdpConfig>)
    ensures r.None? <==> |Split(s, ':')| < 2 || PyInt(Split(s, ':')[1]).None?
    ensures r.Some? ==> var p := Split(s, ':');
      PyInt(p[1]) == Some(r.value.port) && r.value.bindAddress == (if |p| >= 3 then p[2] else FIXTURE_BIND)
  {
    var parts := Split(s, ':');
    if |parts| < 2 then None
    else match PyInt(parts[1])
      case None => None
      case Some(port) => Some(UdpConfig(port, if |parts| >= 3 then parts[2] else FIXTURE_BIND))
  }

  predicate IsUdp(s: string) {
    StartsWith(s, "udp:")
  }

  /** parse_udp_fixture; a None or empty list finds nothing. */
  function ParseUdpFixture(fixtures: Option<seq<string>>): (r: Option<UdpConfig>)
    ensures r.Some? ==> (fixtures.Some? &&
      exists k | 0 <= k < |fixtures.value| :: IsUdp(fixtures.value[k]) && FromFixture(fixtures.value[k]) == r)
  {
    if fixtures.None? || |fixtures.value| == 0 then None else HF.FirstParsed(fixtures.value, IsUdp, FromFixture)
  }

  /** The udp_config fixture: the parsed entry, or the defaults. */
  function UdpConfigFor(fixtures: Option<seq<string>>): (r: UdpConfig)
    ensures ParseUdpFixture(fixtures).None? ==> r == DEFAULT_CONFIG
    ensures ParseUdpFixture(fixtures).Some? ==> r == ParseUdpFixture(fixtures).value
  {
    match ParseUdpFixture(fixtures)
      case None => DEFAULT_CONFIG
      case Some(c) => c
  }

  // ---- Properties ----

  /** from_fixture reads back what `udp:P:B` says: port P, bind address B. */
  lemma FromFixtureRoundTrip(port: int, bind: string)
    requires ':' !in bind
    ensures FromFixture("udp:" + IntString(port) + ":" + bind) == Some(UdpConfig(port, bind))
  {
    var p := IntString(port);
    var s := "udp:" + p + ":" + bind;
    assert Split(s, ':') == ["udp", p, bind] by {
      IntStringChars(port, ':');
      assert s == "udp" + [':'] + p + [':'] + bind;
      SplitThree("udp", p, bind, ':');
    }
    assert PyInt(p) == Some(port) by {
      PyIntOfIntString(port);
    }
    FromFixtureParts(s, ["udp", p, bind], port);
  }

  /**
   * `udp:P` gives port P on every interface, which is not the dataclass's
   * own default bind address.
   */
  lemma FromFixtureDefaultBind(port: int)
    ensures FromFixture("udp:" + IntString(port)) == Some(UdpConfig(port, FIXTURE_BIND))
    ensures FIXTURE_BIND != DEFAULT_BIND
  {
    var p := IntString(port);
    var s := "udp:" + p;
    assert Split(s, ':') == ["udp", p] by {
      IntStringChars(port, ':');
      assert s == "udp" + [':'] + p;
      SplitTwo("udp", p, ':');
    }
    assert PyInt(p) == Some(port) by {
      PyIntOfIntString(port);
    }
    FromFixtureParts(s, ["udp", p], port);
    assert FIXTURE_BIND[0] != DEFAULT_BIND[0];
  }

  /** from_fixture on a string whose parts are known. */
  lemma FromFixtureParts(s: string, parts: seq<string>, port: int)
    requires Split(s, ':') == parts && 2 <= |parts| <= 3 && PyInt(parts[1]) == Some(port)
    ensures FromFixture(s) == Some(UdpConfig(port, if |parts| == 3 then parts[2] else FIXTURE_BIND))
  {
  }

  /** A string without a second part, or with a port int() refuses, raises ValueError. */
  lemma FromFixtureRejects()
    ensures FromFixture("udp") == None
    ensures FromFixture("udp:") == None
  {
    SplitNone("udp", ':');
    SplitHead("udp:", ':', "udp", "");
    SplitNone("", ':');
  }

  /**
   * parse_udp_fixture returns a configuration exactly when some entry
   * starts with `udp:` and parses, and then it is the first such entry's;
   * malformed entries are passed over.
   */
  lemma ParseUdpFixtureFirst(fixtures: seq<string>)
    ensures ParseUdpFixture(Some(fixtures)).Some? <==>
      exists k | 0 <= k < |fixtures| :: IsUdp(fixtures[k]) && FromFixture(fixtures[k]).Some?
    ensures ParseUdpFixture(Some(fixtures)).Some? ==>
      exists k | 0 <= k < |fixtures| :: IsUdp(fixtures[k]) && ParseUdpFixture(Some(fixtures)) == FromFixture(fixtures[k])
        && forall j | 0 <= j < k :: !(IsUdp(fixtures[j]) && FromFixture(fixtures[j]).Some?)
  {
    HF.FirstParsedSpec(fixtures, IsUdp, FromFixture);
  }

  // ---- The server ----

  /** A sender or destination (ip, port). */
  datatype Address = Address(ip: string, port: int)

  /** UdpPacket: the data and the sender's address. */
  datatype UdpPacket = UdpPacket(data: seq<byte>, address: Address)

  /** The exceptions: RuntimeError for a stopped server or no destination, TimeoutError for a read. */
  datatype UdpError = NotStarted | NoDestination | TimedOut

  /** recvfrom(bufsize) gives at most bufsize bytes of a datagram. */
  function Received(p: UdpPacket, bufferSize: nat): (r: UdpPacket)
    ensures r.address == p.address && |r.data| <= bufferSize && |r.data| <= |p.data| && r.data == p.data[..|r.data|]
    ensures |p.data| <= bufferSize ==> r == p
  {
    if |p.data| <= bufferSize then p else p.(data := p.data[..bufferSize])
  }

  class UdpServer {
    var port: int
    const bindAddress: string
    const bufferSize: nat
    /** The socket is open (_socket is not None). */
    var started: bool
    var lastSender: Option<Address>
    var inbox: seq<UdpPacket>
    var outbox: seq<UdpPacket>

    constructor (port: int, bindAddress: string, bufferSize: nat)
      ensures this.port == port && this.bindAddress == bindAddress && this.bufferSize == bufferSize
      ensures !started && lastSender == None && inbox == [] && outbox == []
    {
      this.port, this.bindAddress, this.bufferSize := port, bindAddress, bufferSize;
      started, lastSender, inbox, outbox := false, None, [], [];
    }

    /** start: nothing on a started server; otherwise open, taking the bound port when port 0 was asked for. */
    method Start(boundPort: nat)
      modifies this
      ensures started && lastSender == old(lastSender) && inbox == old(inbox) && outbox == old(outbox)
      ensures old(started) ==> port == old(port)
      ensures !old(started) ==> port == (if old(port) == 0 then boundPort else old(port))
    {
      if started {
        return;
      }
      started := true;
      if port == 0 {
        port := boundPort;
      }
    }

    /** stop: the socket is closed, and what it held goes with it. */
    method Stop()
      modifies this
      ensures !started && port == old(port) && lastSender == old(lastSender) && outbox == old(outbox)
      ensures inbox == if old(started) then [] else old(inbox)
    {
      if started {
        started := false;
        inbox := [];
      }
    }

    /** recv_from: the oldest waiting datagram, whose sender becomes the last sender. */
    method RecvFrom() returns (r: Result<UdpPacket, UdpError>)
      modifies this
      ensures port == old(port) && started == old(started) && outbox == old(outbox)
      ensures !started ==> r == Err(NotStarted) && inbox == old(inbox) && lastSender == old(lastSender)
      ensures started && old(inbox) == [] ==> r == Err(TimedOut) && inbox == old(inbox) && lastSender == old(lastSender)
      ensures started && old(inbox) != [] ==>
        r == Ok(Received(old(inbox)[0], bufferSize)) && inbox == old(inbox)[1..]
        && lastSender == Some(old(inbox)[0].address)
    {
      if !started {
        return Err(NotStarted);
      }
      if inbox == [] {
        return Err(TimedOut);
      }
      var p := Received(inbox[0], bufferSize);
      inbox := inbox[1..];
      lastSender := Some(p.address);
      r := Ok(p);
    }

    /** recv: the data of recv_from's datagram. */
    method Recv() returns (r: Result<seq<byte>, UdpError>)
      modifies this
      ensures port == old(port) && started == old(started) && outbox == old(outbox)
      ensures !started ==> r == Err(NotStarted) && inbox == old(inbox)
      ensures started && old(inbox) == [] ==> r == Err(TimedOut) && inbox == old(inbox)
      ensures started && old(inbox) != [] ==>
        r == Ok(Received(old(inbox)[0], bufferSize).data) && inbox == old(inbox)[1..]
        && lastSender == Some(old(inbox)[0].address)
    {
      var p := RecvFrom();
      if p.Err? {
        return Err(p.error);
      }
      r := Ok(p.value.data);
    }

    /** send_to: to the given address, else to the last sender; the byte count sent. */
    method SendTo(data: seq<byte>, address: Option<Address>) returns (r: Result<nat, UdpError>)
      modifies this`outbox
      ensures !started ==> r == Err(NotStarted) && outbox == old(outbox)
      ensures started && address.None? && lastSender.None? ==> r == Err(NoDestination) && outbox == old(outbox)
      ensures started && (address.Some? || lastSender.Some?) ==>
        r == Ok(|data|)
        && outbox == old(outbox) + [UdpPacket(data, if address.Some? then address.value else lastSender.value)]
    {
      if !started {
        return Err(NotStarted);
      }
      var dest := if address.Some? then address else lastSender;
      if dest.None? {
        return Err(NoDestination);
      }
      outbox := outbox + [UdpPacket(data, dest.value)];
      r := Ok(|data|);
    }

    /** reply: a datagram to the last sender. */
    method Reply(data: seq<byte>) returns (r: Result<nat, UdpError>)
      modifies this`outbox
      ensures !started ==> r == Err(NotStarted) && outbox == old(outbox)
      ensures started && lastSender.None? ==> r == Err(NoDestination) && outbox == old(outbox)
      ensures started && lastSender.Some? ==> r == Ok(|data|) && outbox == old(outbox) + [UdpPacket(data, lastSender.value)]
    {
      r := SendTo(data, lastSender);
    }

    /**
     * clear: 0 on a stopped server; otherwise every waiting datagram is
     * read and thrown away, and their number returned. The last sender
     * is not updated.
     */
    method Clear() returns (count: nat)
      modifies this`inbox
      ensures !started ==> count == 0 && inbox == old(inbox)
      ensures started ==> count == |old(inbox)| && inbox == []
    {
      if !started {
        return 0;
      }
      count := 0;
      while inbox != []
        invariant count + |inbox| == |old(inbox)|
        decreases |inbox|
      {
        inbox := inbox[1..];
        count := count + 1;
      }
    }
  }
}

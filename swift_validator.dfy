// The validator of the swift_io basic packet-routing sample
// (swift_io/samples/basic_packet_routing/src/validator.c): an immediate sink
// that checks each header chain the processor sends against the header it
// carries (packet_defs.h) and keeps global uint32_t statistics: packets
// validated, failed and received, the last sequence number, and a
// first-packet flag. The statistics report's success rate, computed in
// uint32_t, is modelled as written and as intended.
module SwiftValidator {
  import opened Bytes
  import opened Wrappers
  import NB = NetBuf
  import PD = PacketDefs
  import SP = SwiftProcessor

  type BufId = NB.BufId

  /** last_sequence starts at UINT32_MAX, meaning no packet has been seen yet. */
  const NO_SEQUENCE: nat := U32_LIMIT - 1

  /** The validator's statics: uint32_t counters, last_sequence and first_packet. */
  datatype Stats = Stats(validated: nat, failed: nat, lastSequence: nat, firstPacket: bool, received: nat)

  const INITIAL: Stats := Stats(0, 0, NO_SEQUENCE, true, 0)

  predicate StatsFit(s: Stats) {
    s.validated < U32_LIMIT && s.failed < U32_LIMIT && s.lastSequence < U32_LIMIT && s.received < U32_LIMIT
  }

  /** The size, source and type checks of validate_packet_integrity, for a chain of `total` bytes. */
  predicate HeaderOk(hdr: PD.Header, total: nat) {
    total == PD.HEADER_SIZE + hdr.contentLength
    && (hdr.sourceId == PD.SOURCE_ID_SENSOR1 || hdr.sourceId == PD.SOURCE_ID_SENSOR2)
    && (hdr.packetType == PD.PACKET_TYPE_DATA || hdr.packetType == PD.PACKET_TYPE_CONTROL)
  }

  /** The first content byte each source is expected to send. */
  function ExpectedFirst(sourceId: byte): (e: byte)
    ensures e == 0xA0 <==> sourceId == PD.SOURCE_ID_SENSOR1
    ensures e == 0xA0 || e == 0xB0
  {
    if sourceId == PD.SOURCE_ID_SENSOR1 then 0xA0 else 0xB0
  }

  /**
   * The byte validate_packet_integrity reads as the content's first: byte 0
   * of the second buffer's data. The source reads it without looking at the
   * fragment's length, so for an empty fragment the result is whatever the
   * data area held before, which the caller supplies as `past`.
   */
  function FirstContentByte(h: NB.Heap, f: BufId, past: byte): byte
    requires f in h.bufs
  {
    if |h.bufs[f].data| > 0 then h.bufs[f].data[0] else past
  }

  /** The content check: passes without a second buffer, else the first content byte must be the source's. */
  predicate ContentOk(h: NB.Heap, b: BufId, sourceId: byte, past: byte)
    requires b in h.bufs && NB.FragLive(h, b)
  {
    h.bufs[b].frag.None? || FirstContentByte(h, h.bufs[b].frag.value, past) == ExpectedFirst(sourceId)
  }

  /**
   * validate_packet_integrity on the chain at `b`, with last_sequence at
   * `last`: the verdict and the new last_sequence. A packet failing the
   * size, source or type check is refused with last_sequence untouched; one
   * passing them sets last_sequence to its sequence number, whether or not
   * it follows the previous one, and is then judged by its content alone.
   */
  function Integrity(h: NB.Heap, b: BufId, last: nat, past: byte): (r: (bool, nat))
    requires NB.Valid(h) && b in h.bufs && |h.bufs[b].data| >= PD.HEADER_SIZE && NB.FragLive(h, b)
    ensures var hdr := PD.Decode(h.bufs[b].data);
      (!HeaderOk(hdr, NB.FragsLen(h, b)) ==> r == (false, last))
      && (HeaderOk(hdr, NB.FragsLen(h, b)) ==> r.1 == hdr.sequence && (r.0 <==> ContentOk(h, b, hdr.sourceId, past)))
  {
    var hdr := PD.Decode(h.bufs[b].data);
    var total := NB.FragsLen(h, b);
    if total != PD.HEADER_SIZE + hdr.contentLength then (false, last)
    else if hdr.sourceId != PD.SOURCE_ID_SENSOR1 && hdr.sourceId != PD.SOURCE_ID_SENSOR2 then (false, last)
    else if hdr.packetType != PD.PACKET_TYPE_DATA && hdr.packetType != PD.PACKET_TYPE_CONTROL then (false, last)
    else
      var ok := if h.bufs[b].frag.Some? then
                  FirstContentByte(h, h.bufs[b].frag.value, past) == ExpectedFirst(hdr.sourceId)
                else true;
      (ok, hdr.sequence)
  }

  /** The sequence-gap warning: logged when a packet follows an earlier one and its number is not the previous one plus one in uint32_t. */
  predicate GapReported(last: nat, sequence: nat) {
    last != NO_SEQUENCE && sequence != (last + 1) % U32_LIMIT
  }

  /** validator_handler on the buffer at `b`: every call is received, a buffer shorter than a header fails. */
  function Step(s: Stats, h: NB.Heap, b: BufId, past: byte): (r: Stats)
    requires NB.Valid(h) && b in h.bufs && NB.FragLive(h, b) && StatsFit(s)
    ensures StatsFit(r) && !r.firstPacket && r.received == Inc(s.received, 4)
  {
    var s1 := s.(received := Inc(s.received, 4), firstPacket := false);
    if |h.bufs[b].data| < PD.HEADER_SIZE then s1.(failed := Inc(s.failed, 4))
    else
      var v := Integrity(h, b, s.lastSequence, past);
      if v.0 then s1.(validated := Inc(s.validated, 4), lastSequence := v.1)
      else s1.(failed := Inc(s.failed, 4), lastSequence := v.1)
  }

  /**
   * The success rate of the statistics report as written: total and
   * validated * 100 are both uint32_t, so either can wrap.
   */
  function SuccessRateAsWritten(validated: nat, failed: nat): (rate: nat)
    requires validated < U32_LIMIT && failed < U32_LIMIT
    ensures rate < U32_LIMIT
  {
    var total := (validated + failed) % U32_LIMIT;
    if total > 0 then ((validated * 100) % U32_LIMIT) / total else 0
  }

  /** A whole percentage of a part of a total is at most 100, and 100 for the whole. */
  lemma PercentBound(part: nat, total: nat)
    requires 0 < total && part <= total
    ensures (part * 100) / total <= 100
    ensures part == total ==> (part * 100) / total == 100
  {
    var q := (part * 100) / total;
    assert q * total <= part * 100;
    if part == total {
      assert part * 100 == 100 * total;
    }
  }

  /** The success rate the report means: the whole percentage of checked packets that were valid. */
  function SuccessRate(validated: nat, failed: nat): (rate: nat)
    ensures rate <= 100
    ensures failed == 0 && validated > 0 ==> rate == 100
  {
    if validated + failed > 0 then
      PercentBound(validated, validated + failed);
      (validated * 100) / (validated + failed)
    else 0
  }

  // ---- Properties ----

  /**
   * The sequence number never decides a verdict: whatever last_sequence
   * holds, the same chain gets the same verdict and leaves the same new
   * last_sequence.
   */
  lemma SequenceNeverDecides(h: NB.Heap, b: BufId, last1: nat, last2: nat, past: byte)
    requires NB.Valid(h) && b in h.bufs && |h.bufs[b].data| >= PD.HEADER_SIZE && NB.FragLive(h, b)
    ensures Integrity(h, b, last1, past).0 == Integrity(h, b, last2, past).0
    ensures Integrity(h, b, last1, past).0 ==> Integrity(h, b, last1, past).1 == Integrity(h, b, last2, past).1
  {
  }

  /** A valid packet has the size its header announces, a known source and a known type. */
  lemma ValidMeansHeaderOk(h: NB.Heap, b: BufId, last: nat, past: byte)
    requires NB.Valid(h) && b in h.bufs && |h.bufs[b].data| >= PD.HEADER_SIZE && NB.FragLive(h, b)
    requires Integrity(h, b, last, past).0
    ensures var hdr := PD.Decode(h.bufs[b].data);
      NB.FragsLen(h, b) == PD.HEADER_SIZE + hdr.contentLength
      && hdr.sourceId in {PD.SOURCE_ID_SENSOR1, PD.SOURCE_ID_SENSOR2}
      && hdr.packetType in {PD.PACKET_TYPE_DATA, PD.PACKET_TYPE_CONTROL}
  {
  }

  /**
   * Each call counts the packet exactly once: validated or failed goes up by
   * one and the other stays, received goes up, and first_packet is cleared.
   */
  lemma ExactlyOneCounter(s: Stats, h: NB.Heap, b: BufId, past: byte)
    requires NB.Valid(h) && b in h.bufs && NB.FragLive(h, b) && StatsFit(s)
    ensures var r := Step(s, h, b, past);
      (r.validated == Inc(s.validated, 4) && r.failed == s.failed)
      != (r.failed == Inc(s.failed, 4) && r.validated == s.validated)
  {
    assert Inc(s.validated, 4) != s.validated && Inc(s.failed, 4) != s.failed;
  }

  /** A buffer too short for a header fails without a look at its contents, and last_sequence stays. */
  lemma ShortBufferFails(s: Stats, h: NB.Heap, b: BufId, past: byte)
    requires NB.Valid(h) && b in h.bufs && NB.FragLive(h, b) && StatsFit(s)
    requires |h.bufs[b].data| < PD.HEADER_SIZE
    ensures var r := Step(s, h, b, past);
      r.failed == Inc(s.failed, 4) && r.validated == s.validated && r.lastSequence == s.lastSequence
  {
  }

  /** While neither counter has wrapped, validated plus failed counts the calls. */
  lemma CountsAddUp(s: Stats, h: NB.Heap, b: BufId, past: byte)
    requires NB.Valid(h) && b in h.bufs && NB.FragLive(h, b) && StatsFit(s)
    requires s.validated + s.failed + 1 < U32_LIMIT
    ensures var r := Step(s, h, b, past);
      r.validated + r.failed == s.validated + s.failed + 1
  {
  }

  /**
   * The processor's 16-bit counter against the validator's 32-bit
   * expectation: consecutive packets are reported as a gap exactly when the
   * processor's counter wraps from 65535 to 0. The report is a warning only.
   */
  lemma CounterWrapReported(sequence: nat)
    requires sequence < U16_LIMIT
    ensures GapReported(sequence, Inc(sequence, 2)) <==> sequence == U16_LIMIT - 1
  {
    Pow256Values();
  }

  /** The intended rate is a percentage, and it is 100 exactly when some packets were checked and none failed. */
  lemma SuccessRateBounds(validated: nat, failed: nat)
    ensures SuccessRate(validated, failed) <= 100
    ensures SuccessRate(validated, failed) == 100 <==> validated > 0 && failed == 0
  {
    if validated + failed > 0 {
      var t := validated + failed;
      assert validated * 100 <= t * 100;
      if failed > 0 {
        assert validated * 100 < t * 100;
      }
    }
  }

  /** While validated * 100 and the total fit in uint32_t, the rate as written is the intended one. */
  lemma SuccessRateAgrees(validated: nat, failed: nat)
    requires validated * 100 < U32_LIMIT && validated + failed < U32_LIMIT
    ensures SuccessRateAsWritten(validated, failed) == SuccessRate(validated, failed)
  {
  }

  /** After 42949673 packets that all passed, validated * 100 has wrapped to 4 and the report gives 0% instead of 100%. */
  lemma SuccessRateWraps()
    ensures SuccessRateAsWritten(42949673, 0) == 0
    ensures SuccessRate(42949673, 0) == 100
  {
  }

  // ---- The processor and the validator together ----

  /** The data of a chain the processor builds: the header's 12 bytes, then the payload chain. */
  lemma ProcessedChain(h: NB.Heap, b: BufId, stale: seq<byte>, sequence: nat, ticks: nat)
    requires NB.Valid(h) && b in h.bufs && sequence < U16_LIMIT
    ensures var al := NB.Alloc(h, stale);
      var hdr := SP.HeaderFor(h.bufs[b].data, sequence, ticks);
      var h3 := NB.Prepend(al.0, al.1, b, PD.Encode(hdr));
      |h3.bufs[al.1].data| >= PD.HEADER_SIZE && NB.FragLive(h3, al.1)
      && PD.Decode(h3.bufs[al.1].data) == hdr
      && NB.FragsLen(h3, al.1) == PD.HEADER_SIZE + NB.FragsLen(h, b)
      && h3.bufs[al.1].frag == Some(b) && h3.bufs[b].data == h.bufs[b].data
  {
    var al := NB.Alloc(h, stale);
    SP.AllocKeepsPayload(h, b, stale);
    var hdr := SP.HeaderFor(h.bufs[b].data, sequence, ticks);
    var bytes := PD.Encode(hdr);
    var h3 := NB.Prepend(al.0, al.1, b, bytes);
    assert h3 == NB.FragAdd(NB.Ref(NB.Append(al.0, al.1, bytes), b), al.1, b);
    NB.ChainedData(al.0, al.1, b, bytes);
    var fs := NB.FragData(h, b);
    assert ([bytes] + fs)[1..] == fs;
    assert h3.bufs[al.1].data == bytes + [];
    PD.RoundTrip(hdr, []);
  }

  /**
   * What the validator makes of what the processor sends: a packet whose
   * payload lies in one fragment of fewer than 65536 bytes is valid exactly
   * when the payload is not empty and starts with 0xA0 or 0xB0, the first
   * byte of what sensor 1 and sensor 2 send.
   */
  lemma ProcessedPacketVerdict(h: NB.Heap, b: BufId, stale: seq<byte>, sequence: nat, ticks: nat, last: nat, past: byte)
    requires NB.Valid(h) && b in h.bufs && sequence < U16_LIMIT
    requires h.bufs[b].frag.None? && |h.bufs[b].data| < U16_LIMIT
    ensures var al := NB.Alloc(h, stale);
      var h3 := NB.Prepend(al.0, al.1, b, PD.Encode(SP.HeaderFor(h.bufs[b].data, sequence, ticks)));
      var data := h.bufs[b].data;
      |h3.bufs[al.1].data| >= PD.HEADER_SIZE && NB.FragLive(h3, al.1)
      && (Integrity(h3, al.1, last, past).0 <==> |data| > 0 && (data[0] == 0xA0 || data[0] == 0xB0))
  {
    ProcessedChain(h, b, stale, sequence, ticks);
    var data := h.bufs[b].data;
    assert NB.FragData(h, b) == [data];
    assert NB.Concat([data]) == data + [];
  }

  // ---- The validator in place ----

  /** The validator's static statistics. */
  class Validator {
    var validated: nat
    var failed: nat
    var lastSequence: nat
    var firstPacket: bool
    var received: nat

    constructor ()
      ensures Stats(validated, failed, lastSequence, firstPacket, received) == INITIAL
    {
      validated := 0;
      failed := 0;
      lastSequence := NO_SEQUENCE;
      firstPacket := true;
      received := 0;
    }

    function Current(): Stats
      reads this
    {
      Stats(validated, failed, lastSequence, firstPacket, received)
    }

    /** validator_handler on the buffer at `b`; `rate` is the report's success rate, computed without wrapping. */
    method Handle(h: NB.Heap, b: BufId, past: byte) returns (rate: nat)
      requires NB.Valid(h) && b in h.bufs && NB.FragLive(h, b) && StatsFit(Current())
      modifies this
      ensures Current() == Step(old(Current()), h, b, past)
      ensures rate == SuccessRate(validated, failed) && rate <= 100
    {
      received := Inc(received, 4);
      if firstPacket {
        firstPacket := false;
      }
      var data := h.bufs[b].data;
      if |data| < PD.HEADER_SIZE {
        failed := Inc(failed, 4);
      } else {
        var v := Integrity(h, b, lastSequence, past);
        lastSequence := v.1;
        if v.0 {
          validated := Inc(validated, 4);
        } else {
          failed := Inc(failed, 4);
        }
      }
      rate := SuccessRate(validated, failed);
    }
  }
}

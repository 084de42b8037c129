// The register mapper (register_mapper/subsys/register_mapper/register_mapper.c):
// an immutable table of register mappings, sorted by address at link time,
// that maps 16-bit register addresses onto typed fields of zbus channel
// messages. Reads and writes go through a binary search of the table; a
// write either notifies the channel at once or, inside a block write, marks
// it pending so that the commit notifies each touched channel once.
//
// The channels are indices into the mapper's message images. What the zbus
// calls return (a claim with K_NO_WAIT, a notification) is passed in as a
// parameter; the observers a notification reaches are not modelled, only the
// fact that the channel was notified.
module RegisterMapper {
  import opened Wrappers
  import opened Errno
  import opened Bytes

  /** enum reg_type; REG_TYPE_COUNT bounds the valid codes. */
  const REG_TYPE_U8: nat := 0
  const REG_TYPE_U16: nat := 1
  const REG_TYPE_U32: nat := 2
  const REG_TYPE_U64: nat := 3
  const REG_TYPE_I8: nat := 4
  const REG_TYPE_I16: nat := 5
  const REG_TYPE_I32: nat := 6
  const REG_TYPE_I64: nat := 7
  const REG_TYPE_COUNT: nat := 8

  /** Register addresses are uint16_t. */
  const ADDR_LIMIT: nat := 0x1_0000

  /** struct reg_flags. */
  datatype Flags = Flags(readable: bool, writable: bool)

  const REG_FLAGS_RO: Flags := Flags(true, false)
  const REG_FLAGS_WO: Flags := Flags(false, true)
  const REG_FLAGS_RW: Flags := Flags(true, true)

  /** struct reg_mapping; `channel` indexes the mapper's channels. */
  datatype Mapping = Mapping(address: nat, channel: nat, offset: nat, kind: nat, flags: Flags)

  /**
   * struct reg_value: the type tag and the union's contents read as an
   * unsigned number; a move copies its low RegTypeSize(kind) bytes.
   */
  datatype RegValue = RegValue(kind: nat, val: nat)

  function Pow2(n: nat): (r: nat)
    ensures r >= 1
  {
    if n == 0 then 1 else 2 * Pow2(n - 1)
  }

  predicate Signed(kind: nat) {
    REG_TYPE_I8 <= kind < REG_TYPE_COUNT
  }

  /**
   * reg_type_size: the width in bytes, 0 for a code past the last type.
   * Each signed type has the width of its unsigned partner, and the widths
   * double from one byte.
   */
  function RegTypeSize(kind: nat): (n: nat)
    ensures kind < REG_TYPE_COUNT ==> n == Pow2(kind % 4)
    ensures kind >= REG_TYPE_COUNT ==> n == 0
    ensures n <= 8
  {
    if kind == REG_TYPE_U8 || kind == REG_TYPE_I8 then 1
    else if kind == REG_TYPE_U16 || kind == REG_TYPE_I16 then 2
    else if kind == REG_TYPE_U32 || kind == REG_TYPE_I32 then 4
    else if kind == REG_TYPE_U64 || kind == REG_TYPE_I64 then 8
    else 0
  }

  /** The REG_VALUE_* macros: `v` converted to the type's width (two's complement for a negative). */
  function ValueOf(kind: nat, v: int): (r: RegValue)
    ensures r.kind == kind && r.val < Pow256(RegTypeSize(kind))
    ensures FitsIn(v, RegTypeSize(kind)) ==> r.val == v
  {
    RegValue(kind, Trunc(v, RegTypeSize(kind)))
  }

  // ---- The table ----

  /** The link-time order: strictly increasing addresses (one mapping per address). */
  predicate Sorted(maps: seq<Mapping>) {
    forall i, j | 0 <= i < j < |maps| :: maps[i].address < maps[j].address
  }

  /**
   * What REG_MAPPING_DEFINE's build assertions and the read path's
   * assertions guarantee of one mapping, given the channels' message sizes.
   */
  predicate MappingOk(m: Mapping, sizes: seq<nat>) {
    m.address < ADDR_LIMIT && m.kind < REG_TYPE_COUNT
    && m.channel < |sizes| && m.offset + RegTypeSize(m.kind) <= sizes[m.channel]
  }

  predicate TableOk(maps: seq<Mapping>, sizes: seq<nat>) {
    Sorted(maps) && forall i | 0 <= i < |maps| :: MappingOk(maps[i], sizes)
  }

  /** The reference lookup: the first mapping at or after `i` with address `addr`. */
  function LookupFrom(maps: seq<Mapping>, addr: nat, i: nat): (r: Option<nat>)
    requires i <= |maps|
    ensures r.Some? ==> i <= r.value < |maps| && maps[r.value].address == addr
    ensures r.Some? ==> forall k | i <= k < r.value :: maps[k].address != addr
    ensures r.None? ==> forall k | i <= k < |maps| :: maps[k].address != addr
    decreases |maps| - i
  {
    if i == |maps| then None
    else if maps[i].address == addr then Some(i)
    else LookupFrom(maps, addr, i + 1)
  }

  function Lookup(maps: seq<Mapping>, addr: nat): (r: Option<nat>)
    ensures r.Some? ==> r.value < |maps| && maps[r.value].address == addr
    ensures r.None? ==> forall k | 0 <= k < |maps| :: maps[k].address != addr
  {
    LookupFrom(maps, addr, 0)
  }

  /** In a sorted table the mapping with a given address is unique. */
  lemma LookupUnique(maps: seq<Mapping>, addr: nat, k: nat)
    requires Sorted(maps) && k < |maps| && maps[k].address == addr
    ensures Lookup(maps, addr) == Some(k)
  {
  }

  // ---- Register images ----

  /** The bytes of a register's field within its channel message. */
  function Load(msg: seq<byte>, m: Mapping): (v: nat)
    requires m.offset + RegTypeSize(m.kind) <= |msg|
    ensures v < Pow256(RegTypeSize(m.kind))
  {
    ReadLE(msg, m.offset, RegTypeSize(m.kind))
  }

  /** The memcpy of a write: the value's low bytes, little-endian, over the field. */
  function Store(msg: seq<byte>, m: Mapping, v: RegValue): (r: seq<byte>)
    requires m.offset + RegTypeSize(m.kind) <= |msg|
    ensures |r| == |msg|
    ensures forall k | 0 <= k < |msg| && !(m.offset <= k < m.offset + RegTypeSize(m.kind)) :: r[k] == msg[k]
  {
    var n := RegTypeSize(m.kind);
    Splice(msg, m.offset, EncodeLE(Trunc(v.val, n), n))
  }

  /** A read after a write gives back the written value, cut to the register's width. */
  lemma StoreThenLoad(msg: seq<byte>, m: Mapping, v: RegValue)
    requires m.offset + RegTypeSize(m.kind) <= |msg|
    ensures Load(Store(msg, m, v), m) == Trunc(v.val, RegTypeSize(m.kind))
  {
    var n := RegTypeSize(m.kind);
    SpliceThenRead(msg, m.offset, n, Trunc(v.val, n));
  }

  lemma SpliceThenRead(msg: seq<byte>, off: nat, n: nat, u: nat)
    requires off + n <= |msg| && u < Pow256(n)
    ensures ReadLE(Splice(msg, off, EncodeLE(u, n)), off, n) == u
  {
    var w := EncodeLE(u, n);
    assert Splice(msg, off, w)[off..off + n] == w;
    DecodeEncodeLE(u, n);
  }



  /** A write leaves a register whose field it does not cover unchanged. */
  lemma StoreKeepsOther(msg: seq<byte>, m: Mapping, other: Mapping, v: RegValue)
    requires m.offset + RegTypeSize(m.kind) <= |msg| && other.offset + RegTypeSize(other.kind) <= |msg|
    requires m.offset + RegTypeSize(m.kind) <= other.offset || other.offset + RegTypeSize(other.kind) <= m.offset
    ensures Load(Store(msg, m, v), other) == Load(msg, other)
  {
    var n := RegTypeSize(other.kind);
    assert Store(msg, m, v)[other.offset..other.offset + n] == msg[other.offset..other.offset + n];
  }

  /**
   * A value made by the REG_VALUE_* macro for the register's own type reads
   * back as that value: directly for an unsigned type in range, through two's
   * complement for a signed one.
   */
  lemma TypedRoundTrip(msg: seq<byte>, m: Mapping, v: int)
    requires m.kind < REG_TYPE_COUNT && m.offset + RegTypeSize(m.kind) <= |msg|
    requires Signed(m.kind) ==> 0 <= v + Pow256(RegTypeSize(m.kind)) / 2 < Pow256(RegTypeSize(m.kind))
    requires !Signed(m.kind) ==> FitsIn(v, RegTypeSize(m.kind))
    ensures !Signed(m.kind) ==> Load(Store(msg, m, ValueOf(m.kind, v)), m) == v
    ensures Signed(m.kind) ==> ToSigned(Load(Store(msg, m, ValueOf(m.kind, v)), m), RegTypeSize(m.kind)) == v
  {
    var n := RegTypeSize(m.kind);
    var u := ValueOf(m.kind, v).val;
    StoreThenLoad(msg, m, ValueOf(m.kind, v));
    assert Trunc(u, n) == u;
    if Signed(m.kind) {
      SignedTrunc(v, n);
    }
  }

  /** Two's complement of a value in range undone. */
  lemma SignedTrunc(v: int, n: nat)
    requires n > 0 && 0 <= v + Pow256(n) / 2 < Pow256(n)
    ensures ToSigned(Trunc(v, n), n) == v
  {
    var p := Pow256(n);
    if v < 0 {
      TruncNegative(v, p);
      assert Trunc(v, n) == ToUnsigned(v, n);
    }
    SignedRoundTrip(v, n);
  }

  // ---- Error order of a read and a write ----

  /**
   * The outcome reg_read_value reaches before copying: -EINVAL without an
   * out-pointer, -ENOENT for an unknown address, -EACCES for a write-only
   * register, then the claim's own error; 0 when the value is copied.
   */
  function ReadStatus(maps: seq<Mapping>, addr: nat, out: bool, claim: int): (e: int)
    ensures e == 0 <==> (out && Lookup(maps, addr).Some? && maps[Lookup(maps, addr).value].flags.readable && claim == 0)
    ensures !out ==> e == -EINVAL
    ensures out && Lookup(maps, addr).None? ==> e == -ENOENT
    ensures out && Lookup(maps, addr).Some? && !maps[Lookup(maps, addr).value].flags.readable ==> e == -EACCES
    ensures out && Lookup(maps, addr).Some? && maps[Lookup(maps, addr).value].flags.readable ==> e == claim
  {
    if !out then -EINVAL
    else match Lookup(maps, addr)
      case None => -ENOENT
      case Some(k) => if !maps[k].flags.readable then -EACCES else claim
  }

  /**
   * The outcome _reg_write_common reaches before copying: -EINVAL for an
   * unknown address (not -ENOENT), -EINVAL for a type tag other than the
   * register's, -EACCES for a read-only register, then the claim's error.
   */
  function WriteStatus(maps: seq<Mapping>, addr: nat, value: RegValue, claim: int): (e: int)
    ensures e == 0 <==> (Lookup(maps, addr).Some? && maps[Lookup(maps, addr).value].kind == value.kind
                         && maps[Lookup(maps, addr).value].flags.writable && claim == 0)
    ensures Lookup(maps, addr).None? ==> e == -EINVAL
    ensures Lookup(maps, addr).Some? && maps[Lookup(maps, addr).value].kind != value.kind ==> e == -EINVAL
    ensures (Lookup(maps, addr).Some? && maps[Lookup(maps, addr).value].kind == value.kind
             && !maps[Lookup(maps, addr).value].flags.writable) ==> e == -EACCES
    ensures (Lookup(maps, addr).Some? && maps[Lookup(maps, addr).value].kind == value.kind
             && maps[Lookup(maps, addr).value].flags.writable) ==> e == claim
  {
    match Lookup(maps, addr)
    case None => -EINVAL
    case Some(k) =>
      if maps[k].kind != value.kind then -EINVAL
      else if !maps[k].flags.writable then -EACCES
      else claim
  }

  // ---- Block-write commit ----

  predicate ChannelsBelow(maps: seq<Mapping>, n: nat) {
    forall k | 0 <= k < |maps| :: maps[k].channel < n
  }

  /** Some mapping in maps[lo..hi] belongs to channel `c`. */
  predicate Mapped(maps: seq<Mapping>, c: nat, lo: nat, hi: nat)
    requires hi <= |maps|
  {
    exists k | lo <= k < hi :: maps[k].channel == c
  }

  /** The pending flags `p` with the channel of each of maps[..n] cleared. */
  function ClearChannels(maps: seq<Mapping>, p: seq<bool>, n: nat): (r: seq<bool>)
    requires n <= |maps| && ChannelsBelow(maps, |p|)
    ensures |r| == |p|
  {
    if n == 0 then p else ClearChannels(maps, p, n - 1)[maps[n - 1].channel := false]
  }

  /** Widening the prefix maps[..i] by mapping `i`. */
  lemma MappedStep(maps: seq<Mapping>, i: nat)
    requires i < |maps|
    ensures forall d :: Mapped(maps, d, 0, i + 1) <==> Mapped(maps, d, 0, i) || d == maps[i].channel
  {
    forall d | Mapped(maps, d, 0, i + 1)
      ensures Mapped(maps, d, 0, i) || d == maps[i].channel
    {
      var k :| 0 <= k < i + 1 && maps[k].channel == d;
      if k < i {
        assert Mapped(maps, d, 0, i);
      }
    }
    forall d | Mapped(maps, d, 0, i)
      ensures Mapped(maps, d, 0, i + 1)
    {
      var k :| 0 <= k < i && maps[k].channel == d;
      assert 0 <= k < i + 1;
    }
    assert Mapped(maps, maps[i].channel, 0, i + 1);
  }

  /** A flag survives the clearing exactly when none of maps[..n] belongs to its channel. */
  lemma {:induction false} ClearChannelsMeans(maps: seq<Mapping>, p: seq<bool>, n: nat)
    requires n <= |maps| && ChannelsBelow(maps, |p|)
    ensures forall c | 0 <= c < |p| :: ClearChannels(maps, p, n)[c] == (p[c] && !Mapped(maps, c, 0, n))
  {
    if n > 0 {
      ClearChannelsMeans(maps, p, n - 1);
      MappedStep(maps, n - 1);
    }
  }

  /**
   * The channels reg_block_write_commit notifies, in order, when it walks
   * the mappings from `i` with `pend` the pending flags and `last` the
   * channel of the previous mapping it did not skip.
   */
  function CommitOrder(maps: seq<Mapping>, pend: seq<bool>, i: nat, last: Option<nat>): (order: seq<nat>)
    requires i <= |maps| && ChannelsBelow(maps, |pend|)
    ensures |order| <= |maps| - i
    ensures forall k | 0 <= k < |order| :: order[k] < |pend|
    decreases |maps| - i
  {
    if i == |maps| then []
    else
      var c := maps[i].channel;
      if last == Some(c) then CommitOrder(maps, pend, i + 1, last)
      else if pend[c] then [c] + CommitOrder(maps, pend[c := false], i + 1, Some(c))
      else CommitOrder(maps, pend, i + 1, Some(c))
  }

  /** Every channel the commit notifies was pending. */
  lemma {:induction false} CommitOrderPending(maps: seq<Mapping>, pend: seq<bool>, i: nat, last: Option<nat>)
    requires i <= |maps| && ChannelsBelow(maps, |pend|)
    ensures forall k | 0 <= k < |CommitOrder(maps, pend, i, last)| :: pend[CommitOrder(maps, pend, i, last)[k]]
    decreases |maps| - i
  {
    if i < |maps| {
      var c := maps[i].channel;
      if last == Some(c) {
        CommitOrderPending(maps, pend, i + 1, last);
      } else if pend[c] {
        var rest := CommitOrder(maps, pend[c := false], i + 1, Some(c));
        CommitOrderPending(maps, pend[c := false], i + 1, Some(c));
        assert forall k | 0 <= k < |rest| :: pend[rest[k]];
      } else {
        CommitOrderPending(maps, pend, i + 1, Some(c));
      }
    }
  }

  predicate Distinct(s: seq<nat>) {
    forall a, b | 0 <= a < b < |s| :: s[a] != s[b]
  }

  /** The commit notifies no channel twice. */
  lemma {:induction false} CommitOrderOnce(maps: seq<Mapping>, pend: seq<bool>, i: nat, last: Option<nat>)
    requires i <= |maps| && ChannelsBelow(maps, |pend|)
    ensures Distinct(CommitOrder(maps, pend, i, last))
    decreases |maps| - i
  {
    if i < |maps| {
      var c := maps[i].channel;
      if last == Some(c) {
        CommitOrderOnce(maps, pend, i + 1, last);
        assert CommitOrder(maps, pend, i, last) == CommitOrder(maps, pend, i + 1, last);
      } else if pend[c] {
        var p := pend[c := false];
        var rest := CommitOrder(maps, p, i + 1, Some(c));
        CommitOrderOnce(maps, p, i + 1, Some(c));
        CommitOrderPending(maps, p, i + 1, Some(c));
        var order := [c] + rest;
        assert CommitOrder(maps, pend, i, last) == order;
        forall a, b | 0 <= a < b < |order|
          ensures order[a] != order[b]
        {
          assert order[b] == rest[b - 1] && p[rest[b - 1]];
          if a > 0 {
            assert order[a] == rest[a - 1];
          } else {
            assert !p[c];
          }
        }
        assert Distinct(order);
      } else {
        CommitOrderOnce(maps, pend, i + 1, Some(c));
        assert CommitOrder(maps, pend, i, last) == CommitOrder(maps, pend, i + 1, Some(c));
      }
    }
  }

  /**
   * The commit notifies exactly the pending channels that some remaining
   * mapping belongs to (the previous mapping's channel, already handled, is
   * no longer pending).
   */
  lemma {:induction false} CommitOrderComplete(maps: seq<Mapping>, pend: seq<bool>, i: nat, last: Option<nat>, c: nat)
    requires i <= |maps| && ChannelsBelow(maps, |pend|) && c < |pend|
    requires last.Some? ==> last.value < |pend| && !pend[last.value]
    ensures c in CommitOrder(maps, pend, i, last) <==> pend[c] && Mapped(maps, c, i, |maps|)
    decreases |maps| - i
  {
    if i < |maps| {
      var d := maps[i].channel;
      MappedFromStep(maps, c, i);
      if last == Some(d) {
        CommitOrderComplete(maps, pend, i + 1, last, c);
        assert CommitOrder(maps, pend, i, last) == CommitOrder(maps, pend, i + 1, last);
      } else if pend[d] {
        var rest := CommitOrder(maps, pend[d := false], i + 1, Some(d));
        CommitOrderComplete(maps, pend[d := false], i + 1, Some(d), c);
        assert CommitOrder(maps, pend, i, last) == [d] + rest;
      } else {
        CommitOrderComplete(maps, pend, i + 1, Some(d), c);
        assert CommitOrder(maps, pend, i, last) == CommitOrder(maps, pend, i + 1, Some(d));
      }
    }
  }

  lemma MappedFromStep(maps: seq<Mapping>, c: nat, i: nat)
    requires i < |maps|
    ensures Mapped(maps, c, i, |maps|) <==> maps[i].channel == c || Mapped(maps, c, i + 1, |maps|)
  {
    if Mapped(maps, c, i, |maps|) && maps[i].channel != c {
      var k :| i <= k < |maps| && maps[k].channel == c;
      assert i + 1 <= k;
    }
    if maps[i].channel == c {
      assert Mapped(maps, c, i, |maps|);
    }
  }

  /** The first error among the notifications made, in order, or 0 when all succeeded. */
  function FirstFailure(order: seq<nat>, rets: seq<int>): (r: int)
    requires forall k | 0 <= k < |order| :: order[k] < |rets|
  {
    if |order| == 0 then 0
    else if rets[order[0]] != 0 then rets[order[0]]
    else FirstFailure(order[1..], rets)
  }

  /**
   * FirstFailure is 0 exactly when every notification succeeded, and
   * otherwise the error of the first one that failed.
   */
  lemma {:induction false} FirstFailureMeans(order: seq<nat>, rets: seq<int>)
    requires forall k | 0 <= k < |order| :: order[k] < |rets|
    ensures FirstFailure(order, rets) == 0 <==> forall k | 0 <= k < |order| :: rets[order[k]] == 0
    ensures FirstFailure(order, rets) != 0 ==> exists k | 0 <= k < |order| ::
      (rets[order[k]] == FirstFailure(order, rets) && forall j | 0 <= j < k :: rets[order[j]] == 0)
  {
    if |order| > 0 && rets[order[0]] == 0 {
      FirstFailureMeans(order[1..], rets);
      assert forall k | 1 <= k < |order| :: order[k] == order[1..][k - 1];
      if FirstFailure(order, rets) != 0 {
        var k :| 0 <= k < |order| - 1 && rets[order[1..][k]] == FirstFailure(order, rets)
          && forall j | 0 <= j < k :: rets[order[1..][j]] == 0;
        assert rets[order[k + 1]] == FirstFailure(order, rets);
      }
    }
  }

  /** The recorded error wins over anything found later. */
  function Settle(ret: int, later: int): int {
    if ret != 0 then ret else later
  }

  // ---- Overlap validation ----

  /** Register `m` covers byte address `x` of the register space. */
  predicate Covers(m: Mapping, x: nat) {
    m.address <= x < m.address + RegTypeSize(m.kind)
  }

  /**
   * The inclusive ranges [address, address + size - 1] of two registers
   * intersect: the test of _reg_validate_no_overlaps with the ends kept
   * as unbounded integers, and an empty range (a zero-width type)
   * overlapping nothing.
   */
  predicate Overlaps(m1: Mapping, m2: Mapping) {
    RegTypeSize(m1.kind) > 0 && RegTypeSize(m2.kind) > 0
    && m1.address <= m2.address + RegTypeSize(m2.kind) - 1 && m2.address <= m1.address + RegTypeSize(m1.kind) - 1
  }

  /** Two registers overlap exactly when some byte address lies in both. */
  lemma OverlapsShareAddress(m1: Mapping, m2: Mapping)
    ensures Overlaps(m1, m2) <==> exists x: nat :: Covers(m1, x) && Covers(m2, x)
  {
    if Overlaps(m1, m2) {
      var x := if m1.address <= m2.address then m2.address else m1.address;
      assert Covers(m1, x) && Covers(m2, x);
    }
  }

  /** The end address as the source computes it: stored in a uint16_t, so it wraps. */
  function EndAsWritten(m: Mapping): (e: nat)
    ensures e < ADDR_LIMIT
    ensures m.address + RegTypeSize(m.kind) - 1 < ADDR_LIMIT && RegTypeSize(m.kind) > 0 ==> e == m.address + RegTypeSize(m.kind) - 1
  {
    (m.address + RegTypeSize(m.kind) - 1) % ADDR_LIMIT
  }

  /** The overlap test of _reg_validate_no_overlaps as written, on the wrapped ends. */
  predicate OverlapsAsWritten(m1: Mapping, m2: Mapping)
    ensures OverlapsAsWritten(m1, m2) ==> m1.address < ADDR_LIMIT && m2.address < ADDR_LIMIT
  {
    m1.address <= EndAsWritten(m2) && m2.address <= EndAsWritten(m1)
  }

  /** Below the top of the address space the wrapped test and the range intersection agree. */
  lemma OverlapsAsWrittenAgrees(m1: Mapping, m2: Mapping)
    requires m1.kind < REG_TYPE_COUNT && m2.kind < REG_TYPE_COUNT
    requires m1.address + RegTypeSize(m1.kind) <= ADDR_LIMIT && m2.address + RegTypeSize(m2.kind) <= ADDR_LIMIT
    ensures OverlapsAsWritten(m1, m2) <==> Overlaps(m1, m2)
  {
  }

  /**
   * A 32-bit register at 0xFFFE runs past the top of the address space; its
   * wrapped end is 0x0001, so the test misses the 8-bit register at 0xFFFF
   * that it covers.
   */
  lemma OverlapMissedAtTop()
    ensures var m1 := Mapping(0xFFFE, 0, 0, REG_TYPE_U32, REG_FLAGS_RW);
      var m2 := Mapping(0xFFFF, 0, 4, REG_TYPE_U8, REG_FLAGS_RW);
      MappingOk(m1, [8]) && MappingOk(m2, [8])
      && Covers(m1, 0xFFFF) && Covers(m2, 0xFFFF)
      && Overlaps(m1, m2) && !OverlapsAsWritten(m1, m2)
  {
    var m1 := Mapping(0xFFFE, 0, 0, REG_TYPE_U32, REG_FLAGS_RW);
    assert EndAsWritten(m1) == 1;
  }

  predicate Clash(maps: seq<Mapping>, i: nat, j: nat)
    requires i < |maps| && j < |maps|
  {
    i < j && Overlaps(maps[i], maps[j])
  }

  /** Some pair of distinct mappings overlaps. */
  predicate AnyOverlap(maps: seq<Mapping>) {
    exists i, j | 0 <= i < |maps| && 0 <= j < |maps| :: Clash(maps, i, j)
  }

  /** Registers laid out one after another, each ending before the next begins. */
  predicate Spaced(maps: seq<Mapping>) {
    forall i | 0 <= i < |maps| - 1 :: maps[i].address + RegTypeSize(maps[i].kind) <= maps[i + 1].address
  }

  lemma {:induction false} SpacedApart(maps: seq<Mapping>, i: nat, j: nat)
    requires Spaced(maps) && i < j < |maps|
    ensures maps[i].address + RegTypeSize(maps[i].kind) <= maps[j].address
    decreases j - i
  {
    if i + 1 < j {
      SpacedApart(maps, i + 1, j);
    }
  }

  /** A table laid out register after register has no overlap. */
  lemma SpacedNoOverlap(maps: seq<Mapping>)
    requires Spaced(maps)
    ensures !AnyOverlap(maps)
  {
    forall i, j | 0 <= i < |maps| && 0 <= j < |maps| && i < j
      ensures !Clash(maps, i, j)
    {
      SpacedApart(maps, i, j);
    }
  }

  /**
   * A table that passes the overlap check and is in non-decreasing address
   * order is strictly sorted, which is what the binary search relies on.
   */
  lemma NoOverlapSorted(maps: seq<Mapping>)
    requires forall i | 0 <= i < |maps| :: maps[i].kind < REG_TYPE_COUNT
    requires forall i, j | 0 <= i < j < |maps| :: maps[i].address <= maps[j].address
    requires !AnyOverlap(maps)
    ensures Sorted(maps)
  {
    forall i, j | 0 <= i < j < |maps|
      ensures maps[i].address < maps[j].address
    {
      assert !Clash(maps, i, j);
    }
  }

  /** The overlap test table (four registers, two overlapping pairs) fails the check. */
  lemma OverlapTestTableRejected()
    ensures AnyOverlap([
      Mapping(0x7000, 0, 4, REG_TYPE_U32, REG_FLAGS_RW), Mapping(0x7002, 0, 2, REG_TYPE_U16, REG_FLAGS_RW),
      Mapping(0x7006, 0, 4, REG_TYPE_U32, REG_FLAGS_RW), Mapping(0x7009, 0, 4, REG_TYPE_U32, REG_FLAGS_RW)])
  {
    var maps := [
      Mapping(0x7000, 0, 4, REG_TYPE_U32, REG_FLAGS_RW), Mapping(0x7002, 0, 2, REG_TYPE_U16, REG_FLAGS_RW),
      Mapping(0x7006, 0, 4, REG_TYPE_U32, REG_FLAGS_RW), Mapping(0x7009, 0, 4, REG_TYPE_U32, REG_FLAGS_RW)];
    assert Clash(maps, 0, 1);
  }

  // ---- The mapper in place ----

  class Mapper {
    /** The iterable section of mappings. */
    const maps: seq<Mapping>
    /** Each channel's message_size. */
    const sizes: seq<nat>
    /** Whether each channel carries a channel_state in its user_data. */
    const hasState: seq<bool>
    /** Each channel's message. */
    var msgs: seq<seq<byte>>
    /** Each channel's update_pending flag. */
    var pending: seq<bool>
    /** Every zbus_chan_notify call the mapper made, oldest first. */
    var notified: seq<nat>
    /** Whether block_sem is taken. */
    var blockHeld: bool

    ghost predicate Valid()
      reads this
    {
      |msgs| == |sizes| && |pending| == |sizes| && |hasState| == |sizes|
      && (forall c | 0 <= c < |sizes| :: |msgs[c]| == sizes[c])
      && (forall c | 0 <= c < |sizes| :: pending[c] ==> hasState[c])
      && TableOk(maps, sizes)
    }

    constructor (maps: seq<Mapping>, hasState: seq<bool>, msgs: seq<seq<byte>>)
      requires |hasState| == |msgs|
      requires TableOk(maps, seq(|msgs|, c requires 0 <= c < |msgs| => |msgs[c]|))
      ensures Valid()
      ensures this.maps == maps && this.hasState == hasState && this.msgs == msgs
      ensures pending == seq(|msgs|, c => false) && notified == [] && !blockHeld
    {
      this.maps := maps;
      this.sizes := seq(|msgs|, c requires 0 <= c < |msgs| => |msgs[c]|);
      this.hasState := hasState;
      this.msgs := msgs;
      pending := seq(|msgs|, c => false);
      notified := [];
      blockHeld := false;
    }

    /** _find_register: binary search of the sorted table. */
    method FindRegister(addr: nat) returns (r: Option<nat>)
      requires Sorted(maps)
      ensures r == Lookup(maps, addr)
    {
      var start, end := 0, |maps|;
      if start >= end {
        return None;
      }
      while start < end
        invariant 0 <= start <= end <= |maps|
        invariant forall k | 0 <= k < start :: maps[k].address < addr
        invariant forall k | end <= k < |maps| :: maps[k].address > addr
        decreases end - start
      {
        var mid := start + (end - start) / 2;
        if maps[mid].address == addr {
          LookupUnique(maps, addr, mid);
          return Some(mid);
        }
        if maps[mid].address < addr {
          start := mid + 1;
        } else {
          end := mid;
        }
      }
      r := None;
    }

    /**
     * reg_read_value: the error order of ReadStatus; on success the
     * register's type and its field's bytes as an unsigned value.
     */
    method ReadValue(addr: nat, out: bool, claim: int) returns (ret: int, value: Option<RegValue>)
      requires Valid() && addr < ADDR_LIMIT
      ensures ret == ReadStatus(maps, addr, out, claim)
      ensures ret != 0 ==> value == None
      ensures ret == 0 ==> var m := maps[Lookup(maps, addr).value];
        value == Some(RegValue(m.kind, Load(msgs[m.channel], m)))
    {
      value := None;
      if !out {
        return -EINVAL, None;
      }
      var found := FindRegister(addr);
      if found.None? {
        return -ENOENT, None;
      }
      var m := maps[found.value];
      if !m.flags.readable {
        return -EACCES, None;
      }
      if claim != 0 {
        return claim, None;
      }
      value := Some(RegValue(m.kind, ReadLE(msgs[m.channel], m.offset, RegTypeSize(m.kind))));
      ret := 0;
    }

    /**
     * _reg_write_common: the error order of WriteStatus with nothing
     * changed; otherwise the field is overwritten, and the channel is
     * either notified with its pending flag cleared (the notification's
     * result is returned) or, without notification, marked pending.
     */
    method WriteCommon(addr: nat, value: RegValue, notify: bool, claim: int, notifyRet: int) returns (ret: int)
      requires Valid() && addr < ADDR_LIMIT
      modifies this
      ensures Valid() && blockHeld == old(blockHeld)
      ensures WriteStatus(maps, addr, value, claim) != 0 ==>
        ret == WriteStatus(maps, addr, value, claim) && msgs == old(msgs) && pending == old(pending) && notified == old(notified)
      ensures WriteStatus(maps, addr, value, claim) == 0 ==> var m := maps[Lookup(maps, addr).value];
        msgs == old(msgs)[m.channel := Store(old(msgs)[m.channel], m, value)]
        && (notify ==> pending == old(pending)[m.channel := false] && notified == old(notified) + [m.channel] && ret == notifyRet)
        && (!notify ==> pending == old(pending)[m.channel := hasState[m.channel]] && notified == old(notified) && ret == 0)
    {
      var found := FindRegister(addr);
      if found.None? {
        return -EINVAL;
      }
      var m := maps[found.value];
      if m.kind != value.kind {
        return -EINVAL;
      }
      if !m.flags.writable {
        return -EACCES;
      }
      if claim != 0 {
        return claim;
      }
      var c := m.channel;
      var n := RegTypeSize(m.kind);
      msgs := msgs[c := Splice(msgs[c], m.offset, EncodeLE(Trunc(value.val, n), n))];
      if notify {
        if hasState[c] {
          pending := pending[c := false];
        }
        notified := notified + [c];
        ret := notifyRet;
      } else {
        if hasState[c] {
          pending := pending[c := true];
        }
        ret := 0;
      }
    }

    /** reg_write_value: a write that notifies at once. */
    method WriteValue(addr: nat, value: RegValue, claim: int, notifyRet: int) returns (ret: int)
      requires Valid() && addr < ADDR_LIMIT
      modifies this
      ensures Valid() && blockHeld == old(blockHeld)
      ensures WriteStatus(maps, addr, value, claim) != 0 ==>
        ret == WriteStatus(maps, addr, value, claim) && msgs == old(msgs) && pending == old(pending) && notified == old(notified)
      ensures WriteStatus(maps, addr, value, claim) == 0 ==> var m := maps[Lookup(maps, addr).value];
        msgs == old(msgs)[m.channel := Store(old(msgs)[m.channel], m, value)]
        && pending == old(pending)[m.channel := false] && notified == old(notified) + [m.channel] && ret == notifyRet
    {
      ret := WriteCommon(addr, value, true, claim, notifyRet);
    }

    /**
     * reg_block_write_begin: takes block_sem. When it is already taken the
     * call fails with -EBUSY (K_NO_WAIT) or, waiting for a release no
     * other thread makes here, -EAGAIN.
     */
    method BlockWriteBegin(noWait: bool) returns (ret: int)
      modifies this
      ensures msgs == old(msgs) && pending == old(pending) && notified == old(notified)
      ensures old(blockHeld) ==> ret == (if noWait then -EBUSY else -EAGAIN) && blockHeld
      ensures !old(blockHeld) ==> ret == 0 && blockHeld
    {
      if blockHeld {
        return if noWait then -EBUSY else -EAGAIN;
      }
      blockHeld := true;
      ret := 0;
    }

    /**
     * reg_block_write_register: a write that only marks its channel
     * pending. Like the source, it does not check that a block is open.
     */
    method BlockWriteRegister(addr: nat, value: RegValue, claim: int) returns (ret: int)
      requires Valid() && addr < ADDR_LIMIT
      modifies this
      ensures Valid() && blockHeld == old(blockHeld) && notified == old(notified)
      ensures WriteStatus(maps, addr, value, claim) != 0 ==>
        ret == WriteStatus(maps, addr, value, claim) && msgs == old(msgs) && pending == old(pending)
      ensures WriteStatus(maps, addr, value, claim) == 0 ==> var m := maps[Lookup(maps, addr).value];
        msgs == old(msgs)[m.channel := Store(old(msgs)[m.channel], m, value)]
        && pending == old(pending)[m.channel := hasState[m.channel]] && ret == 0
    {
      ret := WriteCommon(addr, value, false, claim, 0);
    }

    /**
     * reg_block_write_commit: releases block_sem, then walks the mappings
     * and notifies every pending channel in CommitOrder, clearing its flag;
     * the first failed notification's error is returned. By
     * CommitOrderOnce and CommitOrderComplete that is each pending mapped
     * channel exactly once.
     */
    method BlockWriteCommit(notifyRet: seq<int>) returns (ret: int)
      requires Valid() && |notifyRet| == |sizes|
      modifies this
      ensures Valid() && !blockHeld && msgs == old(msgs)
      ensures notified == old(notified) + CommitOrder(maps, old(pending), 0, None)
      ensures ret == FirstFailure(CommitOrder(maps, old(pending), 0, None), notifyRet)
      ensures pending == ClearChannels(maps, old(pending), |maps|)
    {
      blockHeld := false;
      assert ChannelsBelow(maps, |sizes|) by {
        forall k | 0 <= k < |maps|
          ensures maps[k].channel < |sizes|
        {
          assert MappingOk(maps[k], sizes);
        }
      }
      ret := CommitWalk(notifyRet);
    }

    /** The walk of reg_block_write_commit over the mappings, after block_sem is given back. */
    method CommitWalk(notifyRet: seq<int>) returns (ret: int)
      requires ChannelsBelow(maps, |sizes|) && |pending| == |sizes| && |notifyRet| == |sizes| && |hasState| == |sizes|
      requires forall c | 0 <= c < |sizes| :: pending[c] ==> hasState[c]
      modifies this`pending, this`notified
      ensures |pending| == |sizes| && forall c | 0 <= c < |sizes| :: pending[c] ==> hasState[c]
      ensures notified == old(notified) + CommitOrder(maps, old(pending), 0, None)
      ensures ret == FirstFailure(CommitOrder(maps, old(pending), 0, None), notifyRet)
      ensures pending == ClearChannels(maps, old(pending), |maps|)
    {
      ret := 0;
      ghost var p0, n0 := pending, notified;
      ghost var full := CommitOrder(maps, p0, 0, None);
      ghost var fail := FirstFailure(full, notifyRet);
      var last: Option<nat> := None;
      var i := 0;
      while i < |maps|
        invariant 0 <= i <= |maps|
        invariant |pending| == |sizes| && forall c | 0 <= c < |sizes| :: pending[c] ==> hasState[c]
        invariant last.Some? ==> last.value < |pending| && !pending[last.value]
        invariant pending == ClearChannels(maps, p0, i)
        invariant notified + CommitOrder(maps, pending, i, last) == n0 + full
        invariant Settle(ret, FirstFailure(CommitOrder(maps, pending, i, last), notifyRet)) == fail
        decreases |maps| - i
      {
        var c := maps[i].channel;
        ret, last := CommitVisit(i, last, ret, notifyRet);
        i := i + 1;
      }
    }

    /**
     * One step of the commit's walk: mapping `i` is skipped when its
     * channel is the previous one; otherwise a pending channel is cleared,
     * notified, and its error recorded unless an earlier one was.
     */
    method CommitVisit(i: nat, last: Option<nat>, ret0: int, notifyRet: seq<int>) returns (ret: int, next: Option<nat>)
      requires i < |maps| && ChannelsBelow(maps, |sizes|) && |pending| == |sizes| && |notifyRet| == |sizes| && |hasState| == |sizes|
      requires forall c | 0 <= c < |sizes| :: pending[c] ==> hasState[c]
      requires last.Some? ==> last.value < |pending| && !pending[last.value]
      modifies this`pending, this`notified
      ensures next == Some(maps[i].channel)
      ensures pending == old(pending)[maps[i].channel := false]
      ensures notified + CommitOrder(maps, pending, i + 1, next) == old(notified) + CommitOrder(maps, old(pending), i, last)
      ensures Settle(ret, FirstFailure(CommitOrder(maps, pending, i + 1, next), notifyRet))
        == Settle(ret0, FirstFailure(CommitOrder(maps, old(pending), i, last), notifyRet))
    {
      var c := maps[i].channel;
      ret := ret0;
      next := Some(c);
      if last == Some(c) {
        assert pending[c := false] == pending;
        return;
      }
      if hasState[c] && pending[c] {
        ghost var rest := CommitOrder(maps, pending[c := false], i + 1, Some(c));
        assert CommitOrder(maps, pending, i, last) == [c] + rest;
        assert ([c] + rest)[1..] == rest;
        pending := pending[c := false];
        var r := notifyRet[c];
        notified := notified + [c];
        assert notified + rest == old(notified) + ([c] + rest);
        if r != 0 {
          if ret == 0 {
            ret := r;
          }
        }
      } else {
        assert pending[c := false] == pending;
      }
    }

    /**
     * _reg_validate_no_overlaps, corrected: -EINVAL exactly when two mappings'
     * address ranges intersect. The C keeps each end in a uint16_t and so
     * misses a register that runs past 0xFFFF (OverlapMissedAtTop).
     */
    method ValidateNoOverlaps() returns (ret: int)
      ensures ret == -EINVAL <==> AnyOverlap(maps)
      ensures ret == 0 <==> !AnyOverlap(maps)
    {
      var overlapCount := 0;
      var i := 0;
      while i < |maps|
        invariant 0 <= i <= |maps| && overlapCount >= 0
        invariant overlapCount > 0 <==> exists a, b | 0 <= a < i && 0 <= b < |maps| :: Clash(maps, a, b)
        decreases |maps| - i
      {
        var n := OverlapsWith(i);
        ghost var before := overlapCount;
        overlapCount := overlapCount + n;
        if n > 0 {
          var b :| 0 <= b < |maps| && Clash(maps, i, b);
          assert 0 <= i < i + 1 && Clash(maps, i, b);
        }
        assert overlapCount > 0 <==> before > 0 || n > 0;
        i := i + 1;
      }
      if overlapCount > 0 {
        return -EINVAL;
      }
      ret := 0;
    }

    /** The inner loop: the number of later mappings that overlap mapping `i`. */
    method OverlapsWith(i: nat) returns (n: nat)
      requires i < |maps|
      ensures n > 0 <==> exists b | 0 <= b < |maps| :: Clash(maps, i, b)
    {
      n := 0;
      var j := 0;
      while j < |maps|
        invariant 0 <= j <= |maps|
        invariant n > 0 <==> exists b | 0 <= b < j :: Clash(maps, i, b)
        decreases |maps| - j
      {
        if i == j || i >= j {
          j := j + 1;
          continue;
        }
        if Overlaps(maps[i], maps[j]) {
          n := n + 1;
          assert Clash(maps, i, j);
        }
        j := j + 1;
      }
    }

    /**
     * reg_foreach: -EINVAL without a callback; otherwise the number of
     * callbacks made, in table order, stopping after the first that
     * returns non-zero. The callback's user_data is folded into the
     * callback itself.
     */
    method Foreach(cb: Option<Mapping -> int>) returns (count: int)
      ensures cb.None? ==> count == -EINVAL
      ensures cb.Some? ==> 0 <= count <= |maps|
      ensures cb.Some? ==> forall k | 0 <= k < count - 1 :: cb.value(maps[k]) == 0
      ensures cb.Some? && count < |maps| ==> 0 < count && cb.value(maps[count - 1]) != 0
    {
      if cb.None? {
        return -EINVAL;
      }
      count := 0;
      var i := 0;
      while i < |maps|
        invariant 0 <= i <= |maps| && count == i
        invariant forall k | 0 <= k < i :: cb.value(maps[k]) == 0
        decreases |maps| - i
      {
        var r := cb.value(maps[i]);
        count := count + 1;
        if r != 0 {
          return;
        }
        i := i + 1;
      }
    }
  }
}

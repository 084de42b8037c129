// The settings table (samples/settings_table/src/settings_api.c): a 16-bit
// settings address space divided into areas. A register area is backed by
// the byte image of a C struct kept in a weave observable and described by
// a table of typed registers (address in the area, offset in the struct,
// type, access flags, min, max, default). A custom area brings its own read
// and write callbacks.
//
// A `union setting_value` is held as the value of the member its register's
// type selects: an integer for the integer types and bool, and the IEEE bit
// pattern for the float types, whose comparisons are not modelled. A
// struct image is a byte sequence; registers are stored little-endian.
module SettingsTable {
  import opened Wrappers
  import opened Errno
  import opened Bytes

  // ---- enum register_type ----

  const ST_U8: nat := 0
  const ST_U16: nat := 1
  const ST_U32: nat := 2
  const ST_U64: nat := 3
  const ST_I8: nat := 4
  const ST_I16: nat := 5
  const ST_I32: nat := 6
  const ST_I64: nat := 7
  const ST_F32: nat := 8
  const ST_F64: nat := 9
  const ST_BOOL: nat := 10
  const ST_TYPE_COUNT: nat := 11

  // ---- enum setting_flags ----

  const ST_FLAG_R: nat := 0x01
  const ST_FLAG_W: nat := 0x02
  const ST_FLAG_RW: nat := 0x03
  const ST_FLAG_NO_RANGE: nat := 0x04

  predicate Readable(flags: nat) { flags % 2 == 1 }
  predicate Writable(flags: nat) { (flags / 2) % 2 == 1 }
  predicate NoRange(flags: nat) { (flags / 4) % 2 == 1 }

  /** struct setting_reg, without the debug name. */
  datatype Reg = Reg(addr: nat, offset: nat, kind: nat, flags: nat, min: int, max: int, dflt: int)

  /** struct setting_reg_ctx: the register table and the observable's validator over a proposed struct image. */
  datatype RegCtx = RegCtx(regs: seq<Reg>, validator: Option<seq<byte> -> int>)

  /**
   * What kind of area an area is: a register area (its read callback is
   * setting_reg_read) or a custom one, whose callbacks are given by the
   * results they return.
   */
  datatype AreaKind =
    | Registers(ctx: RegCtx)
    | Custom(read: (nat, nat) -> int, write: (nat, seq<byte>) -> int)

  /** struct setting_area. */
  datatype Area = Area(name: string, base: nat, size: nat, kind: AreaKind)

  // ---- Type helpers ----

  /** register_type_size. */
  function TypeSize(t: nat): (n: nat)
    ensures t >= ST_TYPE_COUNT <==> n == 0
    ensures n in {0, 1, 2, 4, 8}
  {
    if t >= ST_TYPE_COUNT then 0 else [1, 2, 4, 8, 1, 2, 4, 8, 4, 8, 1][t]
  }

  /** register_type_name. */
  function TypeName(t: nat): (s: string)
    ensures t >= ST_TYPE_COUNT <==> s == "?"
  {
    if t >= ST_TYPE_COUNT then "?"
    else ["u8", "u16", "u32", "u64", "i8", "i16", "i32", "i64", "f32", "f64", "bool"][t]
  }

  predicate IsSigned(t: nat) { ST_I8 <= t <= ST_I64 }

  /** The integer types, the ones whose values are compared. */
  predicate IsInteger(t: nat) { t < ST_F32 }

  /** The values of type `t`'s union member. */
  predicate Fits(t: nat, v: int) {
    var p := Pow256(TypeSize(t));
    if IsSigned(t) then -(p / 2) <= v < p / 2 else 0 <= v < p
  }

  /** value_less_than; bool and an unknown type compare false, and so do floats here. */
  function ValueLess(t: nat, a: int, b: int): (r: bool)
  {
    IsInteger(t) && a < b
  }

  /** value_greater_than. */
  function ValueGreater(t: nat, a: int, b: int): (r: bool)
  {
    IsInteger(t) && a > b
  }

  // ---- Memory access ----

  /** read_value_from_mem: the register's bytes at `off`; an unknown type reads as 0. */
  function ReadValue(t: nat, mem: seq<byte>, off: nat): (v: int)
    requires off + TypeSize(t) <= |mem|
    ensures Fits(t, v)
  {
    var n := TypeSize(t);
    if n == 0 then 0
    else
      var u := DecodeLE(mem[off..off + n]);
      if IsSigned(t) then ToSigned(u, n) else u
  }

  /** write_value_to_mem: the value's low TypeSize(t) bytes, little-endian, at `off`. */
  function WriteValue(t: nat, mem: seq<byte>, off: nat, v: int): (r: seq<byte>)
    requires off + TypeSize(t) <= |mem|
    ensures |r| == |mem|
    ensures forall k | 0 <= k < |mem| && !(off <= k < off + TypeSize(t)) :: r[k] == mem[k]
  {
    var n := TypeSize(t);
    Splice(mem, off, EncodeLE(Trunc(v, n), n))
  }

  /** The value a write of `v` leaves behind for a later read: `v` cut to the member's width. */
  function Stored(t: nat, v: int): (s: int)
    ensures Fits(t, s)
  {
    var n := TypeSize(t);
    if n == 0 then 0
    else if IsSigned(t) then ToSigned(Trunc(v, n), n)
    else Trunc(v, n)
  }

  /** A value that fits its register's type is stored unchanged. */
  lemma StoredFits(t: nat, v: int)
    requires Fits(t, v)
    ensures Stored(t, v) == v
  {
    var n := TypeSize(t);
    if n > 0 && IsSigned(t) {
      var p := Pow256(n);
      if v < 0 {
        TruncNegative(v, p);
        assert Trunc(v, n) == ToUnsigned(v, n);
      }
      SignedRoundTrip(v, n);
    }
  }

  // ---- Validation ----

  /** settings_reg_validate_range. */
  function ValidateRange(reg: Reg, v: int): (ok: bool)
    ensures NoRange(reg.flags) ==> ok
    ensures !NoRange(reg.flags) && IsInteger(reg.kind) ==> (ok <==> reg.min <= v <= reg.max)
  {
    if NoRange(reg.flags) then true
    else if ValueLess(reg.kind, v, reg.min) then false
    else if ValueGreater(reg.kind, v, reg.max) then false
    else true
  }

  /** A uint16_t argument: the ends ranges_overlap is passed are cut to 16 bits. */
  function U16(v: nat): (r: nat)
    ensures r < U16_LIMIT && (v < U16_LIMIT ==> r == v)
  {
    Pow256Values();
    Trunc(v, 2)
  }

  /** ranges_overlap on [aStart, aEnd) and [bStart, bEnd). */
  function RangesOverlap(aStart: nat, aEnd: nat, bStart: nat, bEnd: nat): (r: bool)
  {
    aStart < bEnd && bStart < aEnd
  }

  /** The address range of an area, its end in uint16_t. */
  predicate AreasClash(a: Area, b: Area) {
    RangesOverlap(a.base, U16(a.base + a.size), b.base, U16(b.base + b.size))
  }

  /** Two registers of one area overlap in the area's address space or in the struct. */
  predicate RegsClash(ri: Reg, rj: Reg) {
    var si := TypeSize(ri.kind);
    var sj := TypeSize(rj.kind);
    RangesOverlap(ri.addr, U16(ri.addr + si), rj.addr, U16(rj.addr + sj))
    || RangesOverlap(ri.offset, U16(ri.offset + si), rj.offset, U16(rj.offset + sj))
  }

  /** Some register from `j` on clashes with `ri`. */
  predicate ClashFrom(ri: Reg, regs: seq<Reg>, j: nat)
    decreases |regs| - j
  {
    j < |regs| && (RegsClash(ri, regs[j]) || ClashFrom(ri, regs, j + 1))
  }

  lemma {:induction false} ClashFromMeans(ri: Reg, regs: seq<Reg>, j: nat)
    ensures ClashFrom(ri, regs, j) <==> exists b | j <= b < |regs| :: RegsClash(ri, regs[b])
    decreases |regs| - j
  {
    if j < |regs| {
      ClashFromMeans(ri, regs, j + 1);
    }
  }

  /** The checks validate_reg_area makes of register `i`, in order, and the error of the first that fails. */
  function RegFault(size: nat, regs: seq<Reg>, i: nat): (e: int)
    requires i < |regs|
    ensures e == 0 || e == -EINVAL || e == -ERANGE
  {
    var ri := regs[i];
    var n := TypeSize(ri.kind);
    if ri.offset + n > size then -EINVAL
    else if ri.addr + n > size then -EINVAL
    else if ClashFrom(ri, regs, i + 1) then -EINVAL
    else if !ValidateRange(ri, ri.dflt) then -ERANGE
    else 0
  }

  /** validate_reg_area from register `i` on: the fault of the first register that has one. */
  function RegAreaFrom(size: nat, regs: seq<Reg>, i: nat): (e: int)
    requires i <= |regs|
    ensures e == 0 || e == -EINVAL || e == -ERANGE
    decreases |regs| - i
  {
    if i == |regs| then 0
    else if RegFault(size, regs, i) != 0 then RegFault(size, regs, i)
    else RegAreaFrom(size, regs, i + 1)
  }

  /** Every register's bytes lie inside the struct. */
  predicate RegsFit(size: nat, regs: seq<Reg>) {
    forall i | 0 <= i < |regs| :: regs[i].offset + TypeSize(regs[i].kind) <= size
  }

  /**
   * A register table as validate_reg_area wants it, stated without the
   * 16-bit arithmetic: every register fits in the struct and in the area,
   * no two overlap in either, and every default is in range.
   */
  predicate WellFormedRegs(size: nat, regs: seq<Reg>) {
    (forall i | 0 <= i < |regs| ::
      regs[i].offset + TypeSize(regs[i].kind) <= size
      && regs[i].addr + TypeSize(regs[i].kind) <= size
      && ValidateRange(regs[i], regs[i].dflt))
    && (forall i, j | 0 <= i < |regs| && 0 <= j < |regs| && i != j ::
      !RangesOverlap(regs[i].addr, regs[i].addr + TypeSize(regs[i].kind), regs[j].addr, regs[j].addr + TypeSize(regs[j].kind))
      && !RangesOverlap(regs[i].offset, regs[i].offset + TypeSize(regs[i].kind), regs[j].offset, regs[j].offset + TypeSize(regs[j].kind)))
  }

  /** Each register sits at the same place in the area as in the struct, laid out one after another. */
  predicate Packed(regs: seq<Reg>) {
    (forall i | 0 <= i < |regs| :: regs[i].addr == regs[i].offset)
    && (forall i | 0 <= i < |regs| - 1 :: regs[i].offset + TypeSize(regs[i].kind) <= regs[i + 1].offset)
  }

  // ---- Properties of the helpers ----

  predicate Within(k: nat, start: nat, end: nat) { start <= k < end }

  /**
   * ranges_overlap is symmetric, and on two non-empty ranges it holds
   * exactly when they share a point.
   */
  lemma OverlapMeansSharedPoint(aStart: nat, aEnd: nat, bStart: nat, bEnd: nat)
    ensures RangesOverlap(aStart, aEnd, bStart, bEnd) == RangesOverlap(bStart, bEnd, aStart, aEnd)
    ensures aStart < aEnd && bStart < bEnd ==>
      (RangesOverlap(aStart, aEnd, bStart, bEnd) <==> exists k: nat :: Within(k, aStart, aEnd) && Within(k, bStart, bEnd))
  {
    if aStart < aEnd && bStart < bEnd && RangesOverlap(aStart, aEnd, bStart, bEnd) {
      var k: nat := if aStart < bStart then bStart else aStart;
      assert Within(k, aStart, aEnd) && Within(k, bStart, bEnd);
    }
  }

  /**
   * A write followed by a read of the same register gives the value cut to
   * the member's width, which is the value itself when it fits the type.
   */
  lemma ReadAfterWrite(t: nat, mem: seq<byte>, off: nat, v: int)
    requires off + TypeSize(t) <= |mem|
    ensures ReadValue(t, WriteValue(t, mem, off, v), off) == Stored(t, v)
    ensures Fits(t, v) ==> ReadValue(t, WriteValue(t, mem, off, v), off) == v
  {
    if Fits(t, v) {
      StoredFits(t, v);
    }
    var n := TypeSize(t);
    if n > 0 {
      var w := EncodeLE(Trunc(v, n), n);
      var r := WriteValue(t, mem, off, v);
      assert r[off..off + n] == w;
      DecodeEncodeLE(Trunc(v, n), n);
    }
  }

  /** A read of a register sees only its own bytes: a write elsewhere leaves it alone. */
  lemma ReadAfterOtherWrite(t: nat, mem: seq<byte>, off: nat, v: int, t2: nat, off2: nat)
    requires off + TypeSize(t) <= |mem| && off2 + TypeSize(t2) <= |mem|
    requires !RangesOverlap(off, off + TypeSize(t), off2, off2 + TypeSize(t2))
    ensures ReadValue(t2, WriteValue(t, mem, off, v), off2) == ReadValue(t2, mem, off2)
  {
    var n2 := TypeSize(t2);
    var r := WriteValue(t, mem, off, v);
    assert r[off2..off2 + n2] == mem[off2..off2 + n2];
  }

  /**
   * Range validation: NO_RANGE accepts anything; otherwise an integer
   * register accepts exactly the values in [min, max], and a bool or an
   * unknown type accepts every value.
   */
  lemma ValidateRangeMeans(reg: Reg, v: int)
    ensures NoRange(reg.flags) ==> ValidateRange(reg, v)
    ensures !NoRange(reg.flags) && IsInteger(reg.kind) ==> (ValidateRange(reg, v) <==> reg.min <= v <= reg.max)
    ensures reg.kind == ST_BOOL || reg.kind >= ST_TYPE_COUNT ==> ValidateRange(reg, v)
  {
  }

  /** validate_reg_area from `i` on passes exactly when no register from `i` on has a fault. */
  lemma {:induction false} RegAreaFromZero(size: nat, regs: seq<Reg>, i: nat)
    requires i <= |regs|
    ensures RegAreaFrom(size, regs, i) == 0 <==> forall k | i <= k < |regs| :: RegFault(size, regs, k) == 0
    decreases |regs| - i
  {
    if i < |regs| {
      RegAreaFromZero(size, regs, i + 1);
    }
  }

  /** A register without a fault fits, has its default in range, and clashes with no later register. */
  lemma RegFaultZero(size: nat, regs: seq<Reg>, i: nat)
    requires i < |regs|
    ensures RegFault(size, regs, i) == 0 <==>
      regs[i].offset + TypeSize(regs[i].kind) <= size
      && regs[i].addr + TypeSize(regs[i].kind) <= size
      && (forall j | i < j < |regs| :: !RegsClash(regs[i], regs[j]))
      && ValidateRange(regs[i], regs[i].dflt)
  {
    ClashFromMeans(regs[i], regs, i + 1);
  }

  /** Within a 16-bit area the uint16_t ends of fitting registers never wrap. */
  lemma RegsClashPlain(size: nat, ri: Reg, rj: Reg)
    requires size < U16_LIMIT
    requires ri.offset + TypeSize(ri.kind) <= size && ri.addr + TypeSize(ri.kind) <= size
    requires rj.offset + TypeSize(rj.kind) <= size && rj.addr + TypeSize(rj.kind) <= size
    ensures RegsClash(ri, rj) <==>
      RangesOverlap(ri.addr, ri.addr + TypeSize(ri.kind), rj.addr, rj.addr + TypeSize(rj.kind))
      || RangesOverlap(ri.offset, ri.offset + TypeSize(ri.kind), rj.offset, rj.offset + TypeSize(rj.kind))
  {
  }

  /** A table validate_reg_area accepts is well formed. */
  lemma RegAreaSound(size: nat, regs: seq<Reg>)
    requires size < U16_LIMIT && RegAreaFrom(size, regs, 0) == 0
    ensures WellFormedRegs(size, regs)
  {
    RegAreaFromZero(size, regs, 0);
    forall i | 0 <= i < |regs|
      ensures regs[i].offset + TypeSize(regs[i].kind) <= size
      ensures regs[i].addr + TypeSize(regs[i].kind) <= size
      ensures ValidateRange(regs[i], regs[i].dflt)
    {
      RegFaultZero(size, regs, i);
    }
    forall i, j | 0 <= i < |regs| && 0 <= j < |regs| && i != j
      ensures !RangesOverlap(regs[i].addr, regs[i].addr + TypeSize(regs[i].kind), regs[j].addr, regs[j].addr + TypeSize(regs[j].kind))
      ensures !RangesOverlap(regs[i].offset, regs[i].offset + TypeSize(regs[i].kind), regs[j].offset, regs[j].offset + TypeSize(regs[j].kind))
    {
      var lo := if i < j then i else j;
      var hi := if i < j then j else i;
      RegFaultZero(size, regs, lo);
      RegFaultZero(size, regs, hi);
      RegsClashPlain(size, regs[lo], regs[hi]);
    }
  }

  /** A well-formed table passes validate_reg_area. */
  lemma RegAreaComplete(size: nat, regs: seq<Reg>)
    requires size < U16_LIMIT && WellFormedRegs(size, regs)
    ensures RegAreaFrom(size, regs, 0) == 0
  {
    forall k | 0 <= k < |regs|
      ensures RegFault(size, regs, k) == 0
    {
      forall j | k < j < |regs|
        ensures !RegsClash(regs[k], regs[j])
      {
        RegsClashPlain(size, regs[k], regs[j]);
      }
      RegFaultZero(size, regs, k);
    }
    RegAreaFromZero(size, regs, 0);
  }

  // ---- Areas and lookups ----

  /** In a packed table every register ends before any later one starts. */
  lemma {:induction false} PackedApart(regs: seq<Reg>, i: nat, j: nat)
    requires Packed(regs) && i < j < |regs|
    ensures regs[i].offset + TypeSize(regs[i].kind) <= regs[j].offset
    decreases j - i
  {
    if j > i + 1 {
      PackedApart(regs, i, j - 1);
    }
  }

  /** A packed table whose registers fit and whose defaults are in range is well formed. */
  lemma PackedWellFormed(size: nat, regs: seq<Reg>)
    requires Packed(regs)
    requires forall i | 0 <= i < |regs| :: regs[i].offset + TypeSize(regs[i].kind) <= size && ValidateRange(regs[i], regs[i].dflt)
    ensures WellFormedRegs(size, regs)
  {
    forall i, j | 0 <= i < |regs| && 0 <= j < |regs| && i != j
      ensures !RangesOverlap(regs[i].offset, regs[i].offset + TypeSize(regs[i].kind), regs[j].offset, regs[j].offset + TypeSize(regs[j].kind))
    {
      if i < j {
        PackedApart(regs, i, j);
      } else {
        PackedApart(regs, j, i);
      }
    }
  }

  /** An area's base and size are uint16_t. */
  predicate AreaTyped(a: Area) {
    a.base < U16_LIMIT && a.size < U16_LIMIT
  }

  /** The register table of a register area; a custom area has none. */
  function RegsOf(a: Area): (regs: seq<Reg>)
    ensures a.kind.Custom? ==> regs == []
  {
    if a.kind.Registers? then a.kind.ctx.regs else []
  }

  /** What SYS_INIT checks of an area: its register table passes validate_reg_area. */
  predicate Checked(a: Area) {
    RegAreaFrom(a.size, RegsOf(a), 0) == 0
  }

  predicate Contains(a: Area, addr: nat) {
    a.base <= addr < a.base + a.size
  }

  /** settings_find_area from area `i` on. */
  function AreaFrom(areas: seq<Area>, addr: nat, i: nat): (r: Option<nat>)
    requires i <= |areas|
    ensures r.Some? ==> (i <= r.value < |areas| && Contains(areas[r.value], addr)
                         && forall k | i <= k < r.value :: !Contains(areas[k], addr))
    ensures r.None? ==> forall k | i <= k < |areas| :: !Contains(areas[k], addr)
    decreases |areas| - i
  {
    if i == |areas| then None
    else if Contains(areas[i], addr) then Some(i)
    else AreaFrom(areas, addr, i + 1)
  }

  /** The first area holding `addr`. */
  function AreaFor(areas: seq<Area>, addr: nat): (r: Option<nat>)
    ensures r.Some? ==> (r.value < |areas| && Contains(areas[r.value], addr)
                         && forall k | 0 <= k < r.value :: !Contains(areas[k], addr))
    ensures r.None? ==> forall k | 0 <= k < |areas| :: !Contains(areas[k], addr)
  {
    AreaFrom(areas, addr, 0)
  }

  /** The first register from `i` on whose address in the area is `offset`. */
  function RegFrom(regs: seq<Reg>, offset: nat, i: nat): (r: Option<nat>)
    requires i <= |regs|
    ensures r.Some? ==> (i <= r.value < |regs| && regs[r.value].addr == offset
                         && forall k | i <= k < r.value :: regs[k].addr != offset)
    ensures r.None? ==> forall k | i <= k < |regs| :: regs[k].addr != offset
    decreases |regs| - i
  {
    if i == |regs| then None
    else if regs[i].addr == offset then Some(i)
    else RegFrom(regs, offset, i + 1)
  }

  /** A write of `len` bytes at `offset` touches register `r`; both ends are uint16_t. */
  predicate Touches(r: Reg, offset: nat, len: nat) {
    RangesOverlap(offset, U16(offset + len), r.addr, U16(r.addr + TypeSize(r.kind)))
  }

  /** check_reg_write_access refuses a write that touches a register without ST_FLAG_W. */
  predicate HitsReadOnly(regs: seq<Reg>, offset: nat, len: nat) {
    exists i | 0 <= i < |regs| :: Touches(regs[i], offset, len) && !Writable(regs[i].flags)
  }

  /** validate_reg_write refuses a proposed image in which a touched register is out of range. */
  predicate HitsOutOfRange(regs: seq<Reg>, offset: nat, len: nat, data: seq<byte>)
    requires RegsFit(|data|, regs)
  {
    exists i | 0 <= i < |regs| :: Touches(regs[i], offset, len)
      && !ValidateRange(regs[i], ReadValue(regs[i].kind, data, regs[i].offset))
  }

  /** The length setting_reg_read and setting_reg_write use: cut at the end of the area. */
  function Clamp(size: nat, offset: nat, len: nat): (n: nat)
    requires offset <= size
    ensures offset + n <= size && n <= len
    ensures offset + len <= size ==> n == len
  {
    if offset + len > size then size - offset else len
  }

  /** The image of `m` with `data` copied in at `offset`. */
  function Proposed(m: seq<byte>, offset: nat, data: seq<byte>): (r: seq<byte>)
    requires offset + |data| <= |m|
    ensures |r| == |m| && r[offset..offset + |data|] == data
    ensures forall k | 0 <= k < |m| && !(offset <= k < offset + |data|) :: r[k] == m[k]
  {
    Splice(m, offset, data)
  }

  /** A validator's verdict on a proposed image; no validator accepts it. */
  function Verdict(ctx: RegCtx, image: seq<byte>): (e: int)
  {
    if ctx.validator.Some? && ctx.validator.value(image) < 0 then ctx.validator.value(image) else 0
  }

  /**
   * The error setting_reg_write returns for writing `data` (already cut to
   * the area) at `offset` to the image `m`, or 0: -EROFS, then -ERANGE,
   * then the validator's error.
   */
  function WriteError(ctx: RegCtx, m: seq<byte>, offset: nat, data: seq<byte>): (e: int)
    requires offset + |data| <= |m| && RegsFit(|m|, ctx.regs)
    ensures e <= 0
  {
    if HitsReadOnly(ctx.regs, offset, |data|) then -EROFS
    else if HitsOutOfRange(ctx.regs, offset, |data|, Proposed(m, offset, data)) then -ERANGE
    else Verdict(ctx, Proposed(m, offset, data))
  }

  /** The image after writing each register's default in table order (apply_reg_defaults). */
  function WithDefaults(m: seq<byte>, regs: seq<Reg>): (r: seq<byte>)
    requires RegsFit(|m|, regs)
    ensures |r| == |m|
  {
    if |regs| == 0 then m
    else
      var last := regs[|regs| - 1];
      var before := WithDefaults(m, regs[..|regs| - 1]);
      WriteValue(last.kind, before, last.offset, last.dflt)
  }

  /** The register areas among areas [lo, hi), which apply_reg_defaults publishes, in order. */
  function RegAreaIndices(areas: seq<Area>, lo: nat, hi: nat): (r: seq<nat>)
    requires lo <= hi <= |areas|
    ensures forall k | 0 <= k < |r| :: lo <= r[k] < hi && areas[r[k]].kind.Registers?
    decreases hi - lo
  {
    if lo == hi then []
    else if areas[hi - 1].kind.Registers? then RegAreaIndices(areas, lo, hi - 1) + [hi - 1]
    else RegAreaIndices(areas, lo, hi - 1)
  }

  /** What validate_reg_area returns for each area (0 for a custom one). */
  function AreaCodes(areas: seq<Area>): (codes: seq<int>)
    ensures |codes| == |areas|
    ensures forall k | 0 <= k < |areas| :: (codes[k] == 0 <==> Checked(areas[k]))
  {
    seq(|areas|, k requires 0 <= k < |areas| => RegAreaFrom(areas[k].size, RegsOf(areas[k]), 0))
  }

  /** The first area from `i` on whose code is an error, or |codes|. */
  function InitStop(codes: seq<int>, i: nat): (r: nat)
    requires i <= |codes|
    ensures i <= r <= |codes|
    ensures forall k | i <= k < r :: codes[k] == 0
    ensures r < |codes| ==> codes[r] != 0
    decreases |codes| - i
  {
    if i == |codes| then i
    else if codes[i] != 0 then i
    else InitStop(codes, i + 1)
  }

  /** No two areas clash, as validate_area_addresses sees them. */
  predicate AddressesOk(areas: seq<Area>) {
    forall i, j | 0 <= i < j < |areas| :: !AreasClash(areas[i], areas[j])
  }

  // ---- Properties of lookups and defaults ----

  /** An accepted table fits in the struct. */
  lemma CheckedFits(a: Area)
    requires AreaTyped(a) && Checked(a)
    ensures RegsFit(a.size, RegsOf(a))
  {
    RegAreaSound(a.size, RegsOf(a));
  }

  /** Two registers that share no byte of the struct. */
  predicate Apart(ri: Reg, rj: Reg) {
    !RangesOverlap(ri.offset, ri.offset + TypeSize(ri.kind), rj.offset, rj.offset + TypeSize(rj.kind))
  }

  /** No two registers of the table share a byte of the struct. */
  predicate OffsetsApart(regs: seq<Reg>) {
    forall a, b | 0 <= a < |regs| && 0 <= b < |regs| && a != b :: Apart(regs[a], regs[b])
  }

  lemma OffsetsApartPrefix(regs: seq<Reg>, n: nat)
    requires OffsetsApart(regs) && n <= |regs|
    ensures OffsetsApart(regs[..n])
  {
    var init := regs[..n];
    forall a, b | 0 <= a < n && 0 <= b < n && a != b
      ensures Apart(init[a], init[b])
    {
      assert init[a] == regs[a] && init[b] == regs[b];
    }
  }

  /** The last default written is kept by the writes before it, and vice versa. */
  lemma DefaultsLast(m: seq<byte>, regs: seq<Reg>)
    requires RegsFit(|m|, regs) && |regs| > 0
    ensures var last := regs[|regs| - 1];
      ReadValue(last.kind, WithDefaults(m, regs), last.offset) == Stored(last.kind, last.dflt)
  {
    var last := regs[|regs| - 1];
    ReadAfterWrite(last.kind, WithDefaults(m, regs[..|regs| - 1]), last.offset, last.dflt);
  }

  /** A register before the last keeps what the earlier writes gave it. */
  lemma DefaultsEarlier(m: seq<byte>, regs: seq<Reg>, i: nat)
    requires RegsFit(|m|, regs) && i + 1 < |regs| && Apart(regs[|regs| - 1], regs[i])
    ensures ReadValue(regs[i].kind, WithDefaults(m, regs), regs[i].offset)
            == ReadValue(regs[i].kind, WithDefaults(m, regs[..|regs| - 1]), regs[i].offset)
  {
    var last := regs[|regs| - 1];
    ReadAfterOtherWrite(last.kind, WithDefaults(m, regs[..|regs| - 1]), last.offset, last.dflt, regs[i].kind, regs[i].offset);
  }

  /**
   * After apply_reg_defaults on a table whose registers do not overlap in
   * the struct, every register reads back its default cut to its type.
   */
  lemma {:induction false} DefaultsReadBack(m: seq<byte>, regs: seq<Reg>, i: nat)
    requires RegsFit(|m|, regs) && i < |regs| && OffsetsApart(regs)
    ensures ReadValue(regs[i].kind, WithDefaults(m, regs), regs[i].offset) == Stored(regs[i].kind, regs[i].dflt)
    decreases |regs|
  {
    var n := |regs|;
    if i == n - 1 {
      DefaultsLast(m, regs);
    } else {
      var init := regs[..n - 1];
      assert init[i] == regs[i];
      OffsetsApartPrefix(regs, n - 1);
      DefaultsReadBack(m, init, i);
      DefaultsEarlier(m, regs, i);
    }
  }

  /** So a default that fits its type reads back as itself. */
  lemma DefaultsRestored(m: seq<byte>, regs: seq<Reg>, i: nat)
    requires RegsFit(|m|, regs) && i < |regs| && OffsetsApart(regs) && Fits(regs[i].kind, regs[i].dflt)
    ensures ReadValue(regs[i].kind, WithDefaults(m, regs), regs[i].offset) == regs[i].dflt
  {
    DefaultsReadBack(m, regs, i);
    StoredFits(regs[i].kind, regs[i].dflt);
  }

  /**
   * An area whose end is 0x10000 has a uint16_t end of 0, so
   * validate_area_addresses never finds it overlapping, even with an area
   * inside it.
   */
  lemma TopAreaNeverClashes(a: Area, b: Area)
    requires a.base + a.size == U16_LIMIT
    ensures !AreasClash(a, b) && !AreasClash(b, a)
  {
  }

  /**
   * When validate_area_addresses accepts areas that do not reach the top
   * of the address space, no address is in two of them, so it has one area.
   */
  lemma AcceptedAreasDisjoint(areas: seq<Area>, addr: nat, i: nat, j: nat)
    requires AddressesOk(areas)
    requires forall k | 0 <= k < |areas| :: areas[k].base + areas[k].size < U16_LIMIT
    requires 0 <= i < j < |areas|
    ensures !(Contains(areas[i], addr) && Contains(areas[j], addr))
  {
    assert !AreasClash(areas[i], areas[j]);
  }

  // ---- The loops of settings_api.c ----

  /** validate_area_addresses. */
  method ValidateAreaAddresses(areas: seq<Area>) returns (ret: int)
    ensures ret == 0 || ret == -EINVAL
    ensures ret == 0 <==> AddressesOk(areas)
  {
    var i := 0;
    while i < |areas|
      invariant 0 <= i <= |areas|
      invariant forall a, b | 0 <= a < i && a < b < |areas| :: !AreasClash(areas[a], areas[b])
    {
      var ai := areas[i];
      var aiEnd := U16(ai.base + ai.size);
      var j := 0;
      while j < |areas|
        invariant 0 <= j <= |areas|
        invariant forall b | i < b < j :: !AreasClash(ai, areas[b])
      {
        if i >= j {
          j := j + 1;
          continue;
        }
        var aj := areas[j];
        var ajEnd := U16(aj.base + aj.size);
        if RangesOverlap(ai.base, aiEnd, aj.base, ajEnd) {
          return -EINVAL;
        }
        j := j + 1;
      }
      i := i + 1;
    }
    return 0;
  }

  /** The last check of a register, and what passing all of them means for the rest. */
  lemma RegFaultLate(size: nat, regs: seq<Reg>, i: nat)
    requires i < |regs|
    requires regs[i].offset + TypeSize(regs[i].kind) <= size && regs[i].addr + TypeSize(regs[i].kind) <= size
    requires !ClashFrom(regs[i], regs, i + 1)
    ensures !ValidateRange(regs[i], regs[i].dflt) ==> RegAreaFrom(size, regs, i) == -ERANGE
    ensures ValidateRange(regs[i], regs[i].dflt) ==> RegAreaFrom(size, regs, i) == RegAreaFrom(size, regs, i + 1)
  {
  }

  /** validate_reg_area's inner loop: whether a register from `from` on overlaps `ri` in address or offset. */
  method ClashScan(ri: Reg, regs: seq<Reg>, from: nat) returns (clash: bool)
    requires from <= |regs|
    ensures clash == ClashFrom(ri, regs, from)
  {
    var riSize := TypeSize(ri.kind);
    var j := from;
    while j < |regs|
      invariant from <= j <= |regs|
      invariant ClashFrom(ri, regs, from) == ClashFrom(ri, regs, j)
    {
      var rj := regs[j];
      var rjSize := TypeSize(rj.kind);
      if RangesOverlap(ri.addr, U16(ri.addr + riSize), rj.addr, U16(rj.addr + rjSize)) {
        return true;
      }
      if RangesOverlap(ri.offset, U16(ri.offset + riSize), rj.offset, U16(rj.offset + rjSize)) {
        return true;
      }
      j := j + 1;
    }
    return false;
  }

  /** validate_reg_area. */
  method ValidateRegArea(size: nat, regs: seq<Reg>) returns (ret: int)
    ensures ret == RegAreaFrom(size, regs, 0)
  {
    var i := 0;
    while i < |regs|
      invariant 0 <= i <= |regs|
      invariant RegAreaFrom(size, regs, 0) == RegAreaFrom(size, regs, i)
    {
      var ri := regs[i];
      var riSize := TypeSize(ri.kind);
      if ri.offset + riSize > size {
        return -EINVAL;
      }
      if ri.addr + riSize > size {
        return -EINVAL;
      }
      var clash := ClashScan(ri, regs, i + 1);
      if clash {
        return -EINVAL;
      }
      RegFaultLate(size, regs, i);
      if !ValidateRange(ri, ri.dflt) {
        return -ERANGE;
      }
      i := i + 1;
    }
    return 0;
  }

  /** The default pass of apply_reg_defaults over a copy of the image. */
  method DefaultsOf(m: seq<byte>, regs: seq<Reg>) returns (data: seq<byte>)
    requires RegsFit(|m|, regs)
    ensures data == WithDefaults(m, regs)
  {
    data := m;
    var i := 0;
    while i < |regs|
      invariant 0 <= i <= |regs|
      invariant data == WithDefaults(m, regs[..i])
    {
      var reg := regs[i];
      assert regs[..i + 1][..i] == regs[..i];
      data := WriteValue(reg.kind, data, reg.offset, reg.dflt);
      i := i + 1;
    }
    assert regs[..i] == regs;
  }

  /** check_reg_write_access. */
  method CheckRegWriteAccess(regs: seq<Reg>, offset: nat, len: nat) returns (ret: int)
    ensures ret == (if HitsReadOnly(regs, offset, len) then -EROFS else 0)
  {
    var writeEnd := U16(offset + len);
    var i := 0;
    while i < |regs|
      invariant 0 <= i <= |regs|
      invariant forall k | 0 <= k < i :: !(Touches(regs[k], offset, len) && !Writable(regs[k].flags))
    {
      var r := regs[i];
      var rEnd := U16(r.addr + TypeSize(r.kind));
      if RangesOverlap(offset, writeEnd, r.addr, rEnd) {
        if !Writable(r.flags) {
          return -EROFS;
        }
      }
      i := i + 1;
    }
    return 0;
  }

  /** validate_reg_write over the proposed image. */
  method ValidateRegWrite(regs: seq<Reg>, offset: nat, len: nat, data: seq<byte>) returns (ret: int)
    requires RegsFit(|data|, regs)
    ensures ret == (if HitsOutOfRange(regs, offset, len, data) then -ERANGE else 0)
  {
    var writeEnd := U16(offset + len);
    var i := 0;
    while i < |regs|
      invariant 0 <= i <= |regs|
      invariant forall k | 0 <= k < i ::
        !(Touches(regs[k], offset, len) && !ValidateRange(regs[k], ReadValue(regs[k].kind, data, regs[k].offset)))
    {
      var r := regs[i];
      var rEnd := U16(r.addr + TypeSize(r.kind));
      if RangesOverlap(offset, writeEnd, r.addr, rEnd) {
        var val := ReadValue(r.kind, data, r.offset);
        if !ValidateRange(r, val) {
          return -ERANGE;
        }
      }
      i := i + 1;
    }
    return 0;
  }

  /** The image `m` of area `a` once its defaults are written; only a checked area gets them. */
  ghost function Defaulted(a: Area, m: seq<byte>): (r: seq<byte>)
    requires AreaTyped(a) && Checked(a) && |m| == a.size
    ensures |r| == |m|
  {
    CheckedFits(a);
    WithDefaults(m, RegsOf(a))
  }

  /** The first `i` areas, all checked, hold their defaults in `m1`; the rest keep their `m0` image. */
  ghost predicate InitImages(areas: seq<Area>, m0: seq<seq<byte>>, m1: seq<seq<byte>>, i: nat) {
    i <= |areas| && |m0| == |areas| && |m1| == |areas|
    && forall k | 0 <= k < |areas| ::
         if k < i then AreaTyped(areas[k]) && Checked(areas[k]) && |m0[k]| == areas[k].size && m1[k] == Defaulted(areas[k], m0[k])
         else m1[k] == m0[k]
  }

  lemma InitImagesStep(areas: seq<Area>, m0: seq<seq<byte>>, m1: seq<seq<byte>>, m2: seq<seq<byte>>, i: nat)
    requires InitImages(areas, m0, m1, i) && i < |areas|
    requires AreaTyped(areas[i]) && Checked(areas[i]) && |m0[i]| == areas[i].size
    requires m2 == m1[i := Defaulted(areas[i], m0[i])]
    ensures InitImages(areas, m0, m2, i + 1)
  {
  }

  /** A register found by address: its area and its index in that area's table. */
  datatype RegRef = RegRef(area: nat, reg: nat)

  /** settings_find_reg's answer: the register whose address in the first area holding `addr` is that offset. */
  function RegFor(areas: seq<Area>, addr: nat): (r: Option<RegRef>)
    ensures r.Some? ==> (AreaFor(areas, addr) == Some(r.value.area) && areas[r.value.area].kind.Registers?
                         && r.value.reg < |areas[r.value.area].kind.ctx.regs|
                         && areas[r.value.area].kind.ctx.regs[r.value.reg].addr == addr - areas[r.value.area].base
                         && forall j | 0 <= j < r.value.reg ::
                              areas[r.value.area].kind.ctx.regs[j].addr != addr - areas[r.value.area].base)
    ensures r.None? ==> (AreaFor(areas, addr).None? || areas[AreaFor(areas, addr).value].kind.Custom?
                         || forall j | 0 <= j < |RegsOf(areas[AreaFor(areas, addr).value])| ::
                              RegsOf(areas[AreaFor(areas, addr).value])[j].addr != addr - areas[AreaFor(areas, addr).value].base)
  {
    match AreaFor(areas, addr)
    case None => None
    case Some(k) =>
      if areas[k].kind.Custom? then None
      else
        match RegFrom(areas[k].kind.ctx.regs, addr - areas[k].base, 0)
        case None => None
        case Some(i) => Some(RegRef(k, i))
  }

  // ---- The settings table in place ----

  /**
   * The areas of the iterable section, in section order; each register
   * area's observable holds its struct image in `mem`, and `published`
   * lists the areas whose observable was published, oldest first.
   */
  class Table {
    const areas: seq<Area>
    var mem: seq<seq<byte>>
    var initialized: bool
    var published: seq<nat>

    ghost predicate Valid()
      reads this
    {
      |mem| == |areas|
      && (forall k | 0 <= k < |areas| :: |mem[k]| == areas[k].size && AreaTyped(areas[k]))
      && (initialized ==> forall k | 0 <= k < |areas| :: Checked(areas[k]) && RegsFit(areas[k].size, RegsOf(areas[k])))
    }

    /** Boot: every observable holds a zeroed struct, and nothing is initialized yet. */
    constructor (areas: seq<Area>)
      requires forall k | 0 <= k < |areas| :: AreaTyped(areas[k])
      ensures Valid() && this.areas == areas && !initialized && published == []
      ensures forall k | 0 <= k < |areas| :: mem[k] == seq(areas[k].size, _ => 0)
    {
      this.areas := areas;
      mem := seq(|areas|, k requires 0 <= k < |areas| => seq(areas[k].size, _ => 0));
      initialized := false;
      published := [];
    }

    /** settings_area_count. */
    method AreaCount() returns (count: nat)
      ensures count == |areas|
    {
      count := 0;
      var i := 0;
      while i < |areas|
        invariant 0 <= i <= |areas| && count == i
      {
        count := count + 1;
        i := i + 1;
      }
    }

    /** apply_reg_defaults: every default written into the area's struct, then one publish. */
    method ApplyRegDefaults(k: nat)
      requires Valid() && k < |areas| && RegsFit(areas[k].size, RegsOf(areas[k]))
      modifies this`mem, this`published
      ensures Valid()
      ensures mem == old(mem)[k := WithDefaults(old(mem[k]), RegsOf(areas[k]))]
      ensures published == old(published) + [k]
    {
      var data := DefaultsOf(mem[k], RegsOf(areas[k]));
      mem := mem[k := data];
      published := published + [k];
    }

    /**
     * settings_sys_init: -EINVAL when two areas clash; otherwise each
     * register area in turn is checked (stopping at the first error) and
     * gets its defaults, and the table is initialized when all pass.
     */
    method SysInit() returns (ret: int)
      requires Valid() && !initialized
      modifies this
      ensures Valid()
      ensures !AddressesOk(areas) ==> ret == -EINVAL && mem == old(mem) && published == old(published) && !initialized
      ensures AddressesOk(areas) ==>
        var stop := InitStop(AreaCodes(areas), 0);
        ret == (if stop < |areas| then AreaCodes(areas)[stop] else 0)
        && initialized == (stop == |areas|)
        && published == old(published) + RegAreaIndices(areas, 0, stop)
        && InitImages(areas, old(mem), mem, stop)
    {
      ret := ValidateAreaAddresses(areas);
      if ret < 0 {
        return;
      }
      ghost var codes := AreaCodes(areas);
      var i := 0;
      while i < |areas|
        invariant 0 <= i <= |areas|
        invariant Valid() && !initialized
        invariant forall k | 0 <= k < i :: codes[k] == 0
        invariant InitImages(areas, old(mem), mem, i)
        invariant published == old(published) + RegAreaIndices(areas, 0, i)
      {
        ret := InitArea(i, old(mem), old(published));
        if ret < 0 {
          assert InitStop(codes, 0) == i;
          return;
        }
        i := i + 1;
      }
      assert InitStop(codes, 0) == |areas|;
      forall k | 0 <= k < |areas|
        ensures RegsFit(areas[k].size, RegsOf(areas[k]))
      {
        CheckedFits(areas[k]);
      }
      initialized := true;
      ret := 0;
    }

    /** settings_is_initialized. */
    method IsInitialized() returns (r: bool)
      ensures r == initialized
    {
      r := initialized;
    }

    /** settings_find_area: the first area, in section order, holding `addr`. */
    method FindArea(addr: nat) returns (r: Option<nat>)
      ensures r == AreaFor(areas, addr)
    {
      var i := 0;
      while i < |areas|
        invariant 0 <= i <= |areas|
        invariant AreaFrom(areas, addr, i) == AreaFor(areas, addr)
      {
        if addr >= areas[i].base && addr < areas[i].base + areas[i].size {
          return Some(i);
        }
        i := i + 1;
      }
      return None;
    }

    /** settings_find_reg: the register whose address is `addr`, in the register area holding it. */
    method FindReg(addr: nat) returns (r: Option<RegRef>)
      ensures r == RegFor(areas, addr)
    {
      var area := FindArea(addr);
      if area.None? || areas[area.value].kind.Custom? {
        return None;
      }
      var k := area.value;
      var regs := areas[k].kind.ctx.regs;
      var offset := addr - areas[k].base;
      var i := 0;
      while i < |regs|
        invariant 0 <= i <= |regs|
        invariant RegFrom(regs, offset, i) == RegFrom(regs, offset, 0)
      {
        if regs[i].addr == offset {
          return Some(RegRef(k, i));
        }
        i := i + 1;
      }
      return None;
    }

    /** setting_reg_read: the bytes at `offset`, cut at the end of the area, and their count. */
    method SettingRegRead(k: nat, offset: nat, len: nat) returns (n: nat, out: seq<byte>)
      requires Valid() && k < |areas| && offset <= areas[k].size
      ensures n == Clamp(areas[k].size, offset, len)
      ensures offset + n <= |mem[k]| && out == mem[k][offset..offset + n]
    {
      n := len;
      if offset + len > areas[k].size {
        n := areas[k].size - offset;
      }
      out := mem[k][offset..offset + n];
    }

    /**
     * setting_reg_write: `buf`, cut at the end of the area, is written at
     * `offset` unless it touches a read-only register, leaves a touched
     * register out of range or is refused by the validator; a write that
     * passes is published and returns its length.
     */
    method SettingRegWrite(k: nat, offset: nat, buf: seq<byte>) returns (ret: int)
      requires Valid() && k < |areas| && areas[k].kind.Registers? && offset <= areas[k].size
      requires RegsFit(areas[k].size, areas[k].kind.ctx.regs)
      modifies this`mem, this`published
      ensures Valid()
      ensures var n := Clamp(areas[k].size, offset, |buf|);
        var e := WriteError(areas[k].kind.ctx, old(mem[k]), offset, buf[..n]);
        if e < 0 then ret == e && mem == old(mem) && published == old(published)
        else ret == n && mem == old(mem)[k := Proposed(old(mem[k]), offset, buf[..n])]
             && published == old(published) + [k]
    {
      var ctx := areas[k].kind.ctx;
      var n := |buf|;
      if offset + |buf| > areas[k].size {
        n := areas[k].size - offset;
      }
      ret := CheckRegWriteAccess(ctx.regs, offset, n);
      if ret < 0 {
        return;
      }
      var temp := Proposed(mem[k], offset, buf[..n]);
      ret := ValidateRegWrite(ctx.regs, offset, n, temp);
      if ret < 0 {
        return;
      }
      if ctx.validator.Some? {
        ret := ctx.validator.value(temp);
        if ret < 0 {
          return;
        }
      }
      mem := mem[k := temp];
      published := published + [k];
      ret := n;
    }

    /**
     * settings_read: -EINVAL without a buffer, -ENXIO before SYS_INIT,
     * -ENOENT when no area holds `addr`; otherwise the area's read callback
     * at the offset in the area. A custom area's bytes are not modelled.
     */
    method SettingsRead(addr: nat, buf: bool, len: nat) returns (ret: int, out: seq<byte>)
      requires Valid()
      ensures !buf ==> ret == -EINVAL && out == []
      ensures buf && !initialized ==> ret == -ENXIO && out == []
      ensures buf && initialized && AreaFor(areas, addr).None? ==> ret == -ENOENT && out == []
      ensures buf && initialized && AreaFor(areas, addr).Some? ==>
        var k := AreaFor(areas, addr).value;
        var offset := addr - areas[k].base;
        if areas[k].kind.Registers? then
          ret == Clamp(areas[k].size, offset, len) && out == mem[k][offset..offset + ret]
        else ret == areas[k].kind.read(offset, len) && out == []
    {
      out := [];
      if !buf {
        return -EINVAL, [];
      }
      if !initialized {
        return -ENXIO, [];
      }
      var area := FindArea(addr);
      if area.None? {
        return -ENOENT, [];
      }
      var k := area.value;
      var offset := addr - areas[k].base;
      if areas[k].kind.Registers? {
        var n;
        n, out := SettingRegRead(k, offset, len);
        ret := n;
      } else {
        ret := areas[k].kind.read(offset, len);
      }
    }

    /**
     * settings_write: -EINVAL without a buffer, -ENXIO before SYS_INIT,
     * -ENOENT when no area holds `addr`; otherwise the area's write
     * callback at the offset in the area.
     */
    method SettingsWrite(addr: nat, buf: Option<seq<byte>>) returns (ret: int)
      requires Valid()
      modifies this`mem, this`published
      ensures Valid()
      ensures buf.None? ==> ret == -EINVAL && mem == old(mem) && published == old(published)
      ensures buf.Some? && !initialized ==> ret == -ENXIO && mem == old(mem) && published == old(published)
      ensures buf.Some? && initialized && AreaFor(areas, addr).None? ==>
        ret == -ENOENT && mem == old(mem) && published == old(published)
      ensures buf.Some? && initialized && AreaFor(areas, addr).Some? ==>
        var k := AreaFor(areas, addr).value;
        var offset := addr - areas[k].base;
        if areas[k].kind.Registers? then
          var n := Clamp(areas[k].size, offset, |buf.value|);
          var e := WriteError(areas[k].kind.ctx, old(mem[k]), offset, buf.value[..n]);
          if e < 0 then ret == e && mem == old(mem) && published == old(published)
          else ret == n && mem == old(mem)[k := Proposed(old(mem[k]), offset, buf.value[..n])]
               && published == old(published) + [k]
        else ret == areas[k].kind.write(offset, buf.value) && mem == old(mem) && published == old(published)
    {
      if buf.None? {
        return -EINVAL;
      }
      if !initialized {
        return -ENXIO;
      }
      var area := FindArea(addr);
      if area.None? {
        return -ENOENT;
      }
      var k := area.value;
      var offset := addr - areas[k].base;
      if areas[k].kind.Registers? {
        ret := SettingRegWrite(k, offset, buf.value);
      } else {
        ret := areas[k].kind.write(offset, buf.value);
      }
    }

    /**
     * settings_reg_get: -EINVAL for a missing argument or a custom area,
     * -ENXIO before SYS_INIT, -EROFS for a register without ST_FLAG_R;
     * otherwise the register's value in the area's struct.
     */
    method RegGet(area: Option<nat>, reg: Option<Reg>, value: bool) returns (ret: int, v: int)
      requires Valid() && (area.Some? ==> area.value < |areas|)
      requires area.Some? && reg.Some? ==> reg.value.offset + TypeSize(reg.value.kind) <= areas[area.value].size
      ensures area.None? || reg.None? || !value ==> ret == -EINVAL
      ensures area.Some? && reg.Some? && value ==>
        var a := areas[area.value];
        if !initialized then ret == -ENXIO
        else if a.kind.Custom? then ret == -EINVAL
        else if !Readable(reg.value.flags) then ret == -EROFS
        else ret == 0 && v == ReadValue(reg.value.kind, mem[area.value], reg.value.offset)
    {
      v := 0;
      if area.None? || reg.None? || !value {
        return -EINVAL, 0;
      }
      if !initialized {
        return -ENXIO, 0;
      }
      var k := area.value;
      if areas[k].kind.Custom? {
        return -EINVAL, 0;
      }
      var r := reg.value;
      if !Readable(r.flags) {
        return -EROFS, 0;
      }
      v := ReadValue(r.kind, mem[k], r.offset);
      ret := 0;
    }

    /**
     * settings_reg_set: -EINVAL for a missing argument or a custom area,
     * -ENXIO before SYS_INIT, -EROFS for a register without ST_FLAG_W,
     * -ERANGE for a value out of range, the validator's error on the
     * struct with the value written; otherwise the value is stored and
     * the area published.
     */
    method RegSet(area: Option<nat>, reg: Option<Reg>, value: int) returns (ret: int)
      requires Valid() && (area.Some? ==> area.value < |areas|)
      requires area.Some? && reg.Some? ==> reg.value.offset + TypeSize(reg.value.kind) <= areas[area.value].size
      modifies this`mem, this`published
      ensures Valid()
      ensures ret != 0 ==> mem == old(mem) && published == old(published)
      ensures area.None? || reg.None? ==> ret == -EINVAL
      ensures area.Some? && reg.Some? ==>
        var k := area.value;
        var r := reg.value;
        var a := areas[k];
        if !initialized then ret == -ENXIO
        else if a.kind.Custom? then ret == -EINVAL
        else if !Writable(r.flags) then ret == -EROFS
        else if !ValidateRange(r, value) then ret == -ERANGE
        else
          var image := WriteValue(r.kind, old(mem[k]), r.offset, value);
          if Verdict(a.kind.ctx, image) < 0 then ret == Verdict(a.kind.ctx, image)
          else ret == 0 && mem == old(mem)[k := image] && published == old(published) + [k]
    {
      if area.None? || reg.None? {
        return -EINVAL;
      }
      if !initialized {
        return -ENXIO;
      }
      var k := area.value;
      var ctx := areas[k].kind;
      if ctx.Custom? {
        return -EINVAL;
      }
      var r := reg.value;
      if !Writable(r.flags) {
        return -EROFS;
      }
      if !ValidateRange(r, value) {
        return -ERANGE;
      }
      var temp := WriteValue(r.kind, mem[k], r.offset, value);
      if ctx.ctx.validator.Some? {
        ret := ctx.ctx.validator.value(temp);
        if ret < 0 {
          return;
        }
      }
      mem := mem[k := temp];
      published := published + [k];
      ret := 0;
    }

    /**
     * One area of settings_sys_init's loop: a register area is checked and,
     * when it passes, gets its defaults and is published; a custom area
     * passes untouched.
     */
    method InitArea(i: nat, ghost m0: seq<seq<byte>>, ghost p0: seq<nat>) returns (ret: int)
      requires Valid() && !initialized && i < |areas|
      requires InitImages(areas, m0, mem, i) && published == p0 + RegAreaIndices(areas, 0, i)
      modifies this`mem, this`published
      ensures Valid()
      ensures ret == AreaCodes(areas)[i] && (ret == 0 || ret < 0)
      ensures ret < 0 ==> mem == old(mem) && published == old(published)
      ensures ret == 0 ==> InitImages(areas, m0, mem, i + 1) && published == p0 + RegAreaIndices(areas, 0, i + 1)
    {
      ghost var before := mem;
      assert mem[i] == m0[i];
      if areas[i].kind.Registers? {
        ret := ValidateRegArea(areas[i].size, areas[i].kind.ctx.regs);
        if ret < 0 {
          return;
        }
        CheckedFits(areas[i]);
        ApplyRegDefaults(i);
        assert published == p0 + RegAreaIndices(areas, 0, i) + [i];
      } else {
        ret := 0;
        assert AreaCodes(areas)[i] == 0;
        assert Defaulted(areas[i], m0[i]) == m0[i];
      }
      InitImagesStep(areas, m0, before, mem, i);
    }

    /** The defaults written into every register area in section order, each published. */
    method ApplyAllDefaults()
      requires Valid() && initialized
      modifies this`mem, this`published
      ensures Valid()
      ensures InitImages(areas, old(mem), mem, |areas|)
      ensures published == old(published) + RegAreaIndices(areas, 0, |areas|)
    {
      var i := 0;
      while i < |areas|
        invariant 0 <= i <= |areas|
        invariant Valid() && initialized
        invariant InitImages(areas, old(mem), mem, i)
        invariant published == old(published) + RegAreaIndices(areas, 0, i)
      {
        DefaultStep(i, old(mem), old(published));
        i := i + 1;
      }
    }

    /** One step of ApplyAllDefaults: area `i` gets its defaults, published when it is a register area. */
    method DefaultStep(i: nat, ghost m0: seq<seq<byte>>, ghost p0: seq<nat>)
      requires Valid() && initialized && i < |areas|
      requires InitImages(areas, m0, mem, i) && published == p0 + RegAreaIndices(areas, 0, i)
      modifies this`mem, this`published
      ensures Valid()
      ensures InitImages(areas, m0, mem, i + 1) && published == p0 + RegAreaIndices(areas, 0, i + 1)
    {
      ghost var before := mem;
      assert mem[i] == m0[i];
      if areas[i].kind.Registers? {
        ApplyRegDefaults(i);
        assert published == p0 + RegAreaIndices(areas, 0, i) + [i];
      } else {
        assert Defaulted(areas[i], m0[i]) == m0[i];
      }
      InitImagesStep(areas, m0, before, mem, i);
    }

    /**
     * settings_reset_defaults: -ENXIO before SYS_INIT, -EINVAL for a custom
     * area; otherwise the defaults are written into the given register
     * area, or into every register area when none is given.
     */
    method ResetDefaults(area: Option<nat>) returns (ret: int)
      requires Valid() && (area.Some? ==> area.value < |areas|)
      modifies this`mem, this`published
      ensures Valid()
      ensures !initialized ==> ret == -ENXIO && mem == old(mem) && published == old(published)
      ensures initialized && area.Some? && areas[area.value].kind.Custom? ==>
        ret == -EINVAL && mem == old(mem) && published == old(published)
      ensures initialized && area.Some? && areas[area.value].kind.Registers? ==>
        ret == 0
        && mem == old(mem)[area.value := Defaulted(areas[area.value], old(mem[area.value]))]
        && published == old(published) + [area.value]
      ensures initialized && area.None? ==>
        ret == 0 && InitImages(areas, old(mem), mem, |areas|)
        && published == old(published) + RegAreaIndices(areas, 0, |areas|)
    {
      if !initialized {
        return -ENXIO;
      }
      if area.Some? {
        var k := area.value;
        if areas[k].kind.Custom? {
          return -EINVAL;
        }
        ApplyRegDefaults(k);
        return 0;
      }
      ApplyAllDefaults();
      ret := 0;
    }
  }
}

// Register-mapped settings over weave observables
// (samples/settings_registers/src/settings.c): a registry of up to eight
// observables, each described by a group (a base register, a size and a
// field table), lookup of a register by address, bulk reads and writes of
// a byte window, and typed field access.
//
// The type size and name tables and the R/W flag bits are the same as the
// settings table's and are shared with it. Each registered observable
// keeps its value image here; claiming it with K_FOREVER fails only when
// it has no value buffer. What weave_observable_publish returns (the
// number of observers told, or -EBUSY during a publish) is a parameter.
module SettingsRegisters {
  import opened Wrappers
  import opened Errno
  import opened Bytes
  import opened SettingsTable

  const SETTINGS_MAX_OBSERVABLES: nat := 8

  /** struct setting_field: `reg` is the register's offset from the group's base. */
  datatype Field = Field(name: string, reg: nat, offset: nat, kind: nat, flags: nat)

  /** struct setting_group. */
  datatype Group = Group(name: string, baseReg: nat, size: nat, fields: seq<Field>)

  /**
   * A weave observable as the settings code sees it: its group (the owner
   * sink's user data, absent for an observable without one), the size of
   * its value, whether it has a value buffer, and its validator.
   */
  datatype Observable = Observable(group: Option<Group>, size: nat, hasBuffer: bool, validator: Option<seq<byte> -> int>)

  /** A field found by register: the observable's place in the registry and the field's place in its table. */
  datatype FieldRef = FieldRef(obs: nat, field: nat)

  /** A register found inside a group's range: the observable and the byte offset in its value. */
  datatype Window = Window(obs: nat, offset: nat)

  /** The register a field answers to: base_reg + reg, as a uint16_t. */
  function FieldReg(g: Group, f: Field): (r: nat)
    ensures r < U16_LIMIT
  {
    U16(g.baseReg + f.reg)
  }

  /** No field of the observable's group answers to `reg`. */
  predicate NoField(o: Observable, reg: nat) {
    o.group.None? || forall j | 0 <= j < |o.group.value.fields| :: FieldReg(o.group.value, o.group.value.fields[j]) != reg
  }

  /** The first field from `j` on in the group's table that answers to `reg`. */
  function FieldFrom(g: Group, reg: nat, j: nat): (r: Option<nat>)
    requires j <= |g.fields|
    ensures r.Some? ==> (j <= r.value < |g.fields| && FieldReg(g, g.fields[r.value]) == reg
                         && forall k | j <= k < r.value :: FieldReg(g, g.fields[k]) != reg)
    ensures r.None? ==> forall k | j <= k < |g.fields| :: FieldReg(g, g.fields[k]) != reg
    decreases |g.fields| - j
  {
    if j == |g.fields| then None
    else if FieldReg(g, g.fields[j]) == reg then Some(j)
    else FieldFrom(g, reg, j + 1)
  }

  /** settings_find_reg from observable `i` on: the first field, in registry order, answering to `reg`. */
  function FindRegFrom(registry: seq<Observable>, reg: nat, i: nat): (r: Option<FieldRef>)
    requires i <= |registry|
    ensures r.Some? ==> (i <= r.value.obs < |registry| && registry[r.value.obs].group.Some?
                         && r.value.field < |registry[r.value.obs].group.value.fields|
                         && FieldReg(registry[r.value.obs].group.value, registry[r.value.obs].group.value.fields[r.value.field]) == reg
                         && (forall j | 0 <= j < r.value.field ::
                               FieldReg(registry[r.value.obs].group.value, registry[r.value.obs].group.value.fields[j]) != reg)
                         && forall k | i <= k < r.value.obs :: NoField(registry[k], reg))
    ensures r.None? ==> forall k | i <= k < |registry| :: NoField(registry[k], reg)
    decreases |registry| - i
  {
    if i == |registry| then None
    else if registry[i].group.None? then FindRegFrom(registry, reg, i + 1)
    else
      match FieldFrom(registry[i].group.value, reg, 0)
      case Some(j) => Some(FieldRef(i, j))
      case None => FindRegFrom(registry, reg, i + 1)
  }

  /** The register lies in the group's declared range. */
  predicate InGroup(g: Group, reg: nat) {
    g.baseReg <= reg < g.baseReg + g.size
  }

  /** settings_find_obs from observable `i` on: the first group whose range holds `reg`, with the offset in it. */
  function ObsFrom(registry: seq<Observable>, reg: nat, i: nat): (r: Option<Window>)
    requires i <= |registry|
    ensures r.Some? ==> (i <= r.value.obs < |registry| && registry[r.value.obs].group.Some?
                         && InGroup(registry[r.value.obs].group.value, reg)
                         && r.value.offset == reg - registry[r.value.obs].group.value.baseReg
                         && forall k | i <= k < r.value.obs :: registry[k].group.None? || !InGroup(registry[k].group.value, reg))
    ensures r.None? ==> forall k | i <= k < |registry| :: registry[k].group.None? || !InGroup(registry[k].group.value, reg)
    decreases |registry| - i
  {
    if i == |registry| then None
    else if registry[i].group.Some? && InGroup(registry[i].group.value, reg) then
      Some(Window(i, reg - registry[i].group.value.baseReg))
    else ObsFrom(registry, reg, i + 1)
  }

  /** The bytes a bulk transfer moves: `len`, cut to what is left of the group's range and of the struct. */
  function Transfer(groupSize: nat, obsSize: nat, offset: nat, len: nat): (n: nat)
    requires offset <= groupSize && offset <= obsSize
    ensures n <= len && offset + n <= groupSize && offset + n <= obsSize
    ensures n == len || offset + n == groupSize || offset + n == obsSize
  {
    var rangeAvail := groupSize - offset;
    var structAvail := obsSize - offset;
    var avail := if rangeAvail < structAvail then rangeAvail else structAvail;
    if len < avail then len else avail
  }

  /** A group never reaches past its observable's value. */
  predicate GroupFits(o: Observable) {
    o.group.Some? ==> o.group.value.size <= o.size
  }

  /** The image a field write proposes: the field's bytes replaced by the first TypeSize bytes of `buf`. */
  function FieldImage(value: seq<byte>, f: Field, buf: seq<byte>): (r: seq<byte>)
    requires f.offset + TypeSize(f.kind) <= |value| && TypeSize(f.kind) <= |buf|
    ensures |r| == |value| && r[f.offset..f.offset + TypeSize(f.kind)] == buf[..TypeSize(f.kind)]
    ensures forall k | 0 <= k < |value| && !(f.offset <= k < f.offset + TypeSize(f.kind)) :: r[k] == value[k]
  {
    Splice(value, f.offset, buf[..TypeSize(f.kind)])
  }

  /** weave_observable_validate: 0 without a validator, else the validator's answer. */
  function Validate(o: Observable, image: seq<byte>): (e: int)
    ensures o.validator.None? ==> e == 0
  {
    if o.validator.Some? then o.validator.value(image) else 0
  }

  // ---- Properties ----

  /**
   * A bulk write followed by a bulk read of the same register asking for
   * as many bytes as were written moves the same window and gives back
   * the bytes written.
   */
  lemma BulkWriteThenRead(groupSize: nat, value: seq<byte>, offset: nat, buf: seq<byte>)
    requires offset <= groupSize && offset <= |value|
    ensures var n := Transfer(groupSize, |value|, offset, |buf|);
      Transfer(groupSize, |value|, offset, n) == n
      && Splice(value, offset, buf[..n])[offset..offset + n] == buf[..n]
  {
  }

  /**
   * A field write that the validator accepts and that is read back gives
   * the bytes written, and the other fields keep their bytes.
   */
  lemma FieldSetThenGet(value: seq<byte>, f: Field, g: Field, buf: seq<byte>)
    requires f.offset + TypeSize(f.kind) <= |value| && TypeSize(f.kind) <= |buf|
    requires g.offset + TypeSize(g.kind) <= |value|
    requires g.offset >= f.offset + TypeSize(f.kind) || f.offset >= g.offset + TypeSize(g.kind)
    ensures FieldImage(value, f, buf)[f.offset..f.offset + TypeSize(f.kind)] == buf[..TypeSize(f.kind)]
    ensures FieldImage(value, f, buf)[g.offset..g.offset + TypeSize(g.kind)] == value[g.offset..g.offset + TypeSize(g.kind)]
  {
    var r := FieldImage(value, f, buf);
    assert forall k | g.offset <= k < g.offset + TypeSize(g.kind) :: r[k] == value[k];
  }

  /** The inner loop of settings_find_reg: the first field of the group answering to `reg`. */
  method GroupField(g: Group, reg: nat) returns (r: Option<nat>)
    ensures r == FieldFrom(g, reg, 0)
  {
    var j := 0;
    while j < |g.fields|
      invariant 0 <= j <= |g.fields|
      invariant FieldFrom(g, reg, j) == FieldFrom(g, reg, 0)
    {
      var fieldReg := U16(g.baseReg + g.fields[j].reg);
      if reg == fieldReg {
        return Some(j);
      }
      j := j + 1;
    }
    return None;
  }

  // ---- The registry in place ----

  class Settings {
    var registry: seq<Observable>
    var values: seq<seq<byte>>
    var published: seq<nat>

    ghost predicate Valid()
      reads this
    {
      |registry| <= SETTINGS_MAX_OBSERVABLES && |values| == |registry|
      && forall k | 0 <= k < |registry| :: |values[k]| == registry[k].size && GroupFits(registry[k])
    }

    constructor ()
      ensures Valid() && registry == [] && values == [] && published == []
    {
      registry, values, published := [], [], [];
    }

    /**
     * settings_register: -EINVAL for NULL, -ENOMEM once eight are
     * registered; otherwise the observable, holding `value`, is appended.
     */
    method Register(obs: Option<Observable>, value: seq<byte>) returns (ret: int)
      requires Valid() && (obs.Some? ==> |value| == obs.value.size && GroupFits(obs.value))
      modifies this`registry, this`values
      ensures Valid()
      ensures obs.None? ==> ret == -EINVAL && registry == old(registry) && values == old(values)
      ensures obs.Some? && |old(registry)| >= SETTINGS_MAX_OBSERVABLES ==>
        ret == -ENOMEM && registry == old(registry) && values == old(values)
      ensures obs.Some? && |old(registry)| < SETTINGS_MAX_OBSERVABLES ==>
        ret == 0 && registry == old(registry) + [obs.value] && values == old(values) + [value]
    {
      if obs.None? {
        return -EINVAL;
      }
      if |registry| >= SETTINGS_MAX_OBSERVABLES {
        return -ENOMEM;
      }
      registry := registry + [obs.value];
      values := values + [value];
      ret := 0;
    }

    /** settings_get_count. */
    method GetCount() returns (n: nat)
      requires Valid()
      ensures n == |registry| && n <= SETTINGS_MAX_OBSERVABLES
    {
      n := |registry|;
    }

    /** settings_get_at: NULL for an index outside [0, count). */
    method GetAt(index: int) returns (r: Option<Observable>)
      ensures (index < 0 || index >= |registry|) <==> r.None?
      ensures 0 <= index < |registry| ==> r == Some(registry[index])
    {
      if index < 0 || index >= |registry| {
        return None;
      }
      r := Some(registry[index]);
    }

    /** settings_find_reg: 0 and the first field answering to `reg`, else -ENOENT. */
    method FindReg(reg: nat) returns (ret: int, found: Option<FieldRef>)
      ensures found == FindRegFrom(registry, reg, 0)
      ensures ret == (if found.Some? then 0 else -ENOENT)
    {
      var i := 0;
      while i < |registry|
        invariant 0 <= i <= |registry|
        invariant FindRegFrom(registry, reg, i) == FindRegFrom(registry, reg, 0)
      {
        if registry[i].group.Some? {
          var j := GroupField(registry[i].group.value, reg);
          if j.Some? {
            return 0, Some(FieldRef(i, j.value));
          }
        }
        i := i + 1;
      }
      return -ENOENT, None;
    }

    /** settings_find_field: the field settings_find_reg finds, or NULL. */
    method FindField(reg: nat) returns (field: Option<Field>)
      ensures FindRegFrom(registry, reg, 0).None? ==> field.None?
      ensures FindRegFrom(registry, reg, 0).Some? ==>
        var at := FindRegFrom(registry, reg, 0).value;
        field == Some(registry[at.obs].group.value.fields[at.field])
    {
      var ret, found := FindReg(reg);
      if ret == 0 {
        return Some(registry[found.value.obs].group.value.fields[found.value.field]);
      }
      return None;
    }

    /** settings_find_obs: the first group whose range holds `reg`, and the offset of `reg` in it. */
    method FindObs(reg: nat) returns (ret: int, window: Option<Window>)
      ensures window == ObsFrom(registry, reg, 0)
      ensures ret == (if window.Some? then 0 else -ENOENT)
    {
      var i := 0;
      while i < |registry|
        invariant 0 <= i <= |registry|
        invariant ObsFrom(registry, reg, i) == ObsFrom(registry, reg, 0)
      {
        if registry[i].group.Some? {
          var g := registry[i].group.value;
          if reg >= g.baseReg && reg < g.baseReg + g.size {
            return 0, Some(Window(i, reg - g.baseReg));
          }
        }
        i := i + 1;
      }
      return -ENOENT, None;
    }

    /**
     * settings_read: -ENOENT outside every group, -EAGAIN without a value
     * buffer; otherwise the bytes at the register's offset, cut to the
     * group's range and the struct, and their count.
     */
    method Read(reg: nat, len: nat) returns (ret: int, out: seq<byte>)
      requires Valid()
      ensures var w := ObsFrom(registry, reg, 0);
        if w.None? then ret == -ENOENT && out == []
        else
          var o := registry[w.value.obs];
          if !o.hasBuffer then ret == -EAGAIN && out == []
          else
            var n := Transfer(o.group.value.size, o.size, w.value.offset, len);
            ret == n && out == values[w.value.obs][w.value.offset..w.value.offset + n]
    {
      var window;
      ret, window := FindObs(reg);
      if ret < 0 {
        return ret, [];
      }
      var k := window.value.obs;
      var offset := window.value.offset;
      var o := registry[k];
      var rangeAvail := o.group.value.size - offset;
      var structAvail := o.size - offset;
      var avail := if rangeAvail < structAvail then rangeAvail else structAvail;
      var toRead := if len < avail then len else avail;
      if !o.hasBuffer {
        return -EAGAIN, [];
      }
      out := values[k][offset..offset + toRead];
      ret := toRead;
    }

    /**
     * settings_write: -ENOENT outside every group, -EAGAIN without a value
     * buffer; otherwise the bytes are copied in at the register's offset,
     * cut to the group's range and the struct, the observable is published
     * and the count is returned. No validator is consulted.
     */
    method Write(reg: nat, buf: seq<byte>) returns (ret: int)
      requires Valid()
      modifies this`values, this`published
      ensures Valid() && registry == old(registry)
      ensures var w := ObsFrom(registry, reg, 0);
        if w.None? then ret == -ENOENT && values == old(values) && published == old(published)
        else
          var o := registry[w.value.obs];
          if !o.hasBuffer then ret == -EAGAIN && values == old(values) && published == old(published)
          else
            var n := Transfer(o.group.value.size, o.size, w.value.offset, |buf|);
            ret == n
            && values == old(values)[w.value.obs := Splice(old(values[w.value.obs]), w.value.offset, buf[..n])]
            && published == old(published) + [w.value.obs]
    {
      var window;
      ret, window := FindObs(reg);
      if ret < 0 {
        return;
      }
      var k := window.value.obs;
      var offset := window.value.offset;
      var o := registry[k];
      var rangeAvail := o.group.value.size - offset;
      var structAvail := o.size - offset;
      var avail := if rangeAvail < structAvail then rangeAvail else structAvail;
      var toWrite := if |buf| < avail then |buf| else avail;
      if !o.hasBuffer {
        return -EAGAIN;
      }
      values := values[k := Splice(values[k], offset, buf[..toWrite])];
      published := published + [k];
      ret := toWrite;
    }

    /**
     * settings_field_get: -EINVAL for a missing argument, -EACCES for a
     * field without SETTING_FLAG_R, -EAGAIN without a value buffer;
     * otherwise the field's TypeSize bytes and that size.
     */
    method FieldGet(obs: Option<nat>, field: Option<Field>, buf: bool) returns (ret: int, out: seq<byte>)
      requires Valid() && (obs.Some? ==> obs.value < |registry|)
      requires obs.Some? && field.Some? ==> field.value.offset + TypeSize(field.value.kind) <= registry[obs.value].size
      ensures obs.None? || field.None? || !buf ==> ret == -EINVAL && out == []
      ensures obs.Some? && field.Some? && buf ==>
        var f := field.value;
        if !Readable(f.flags) then ret == -EACCES && out == []
        else if !registry[obs.value].hasBuffer then ret == -EAGAIN && out == []
        else ret == TypeSize(f.kind) && out == values[obs.value][f.offset..f.offset + TypeSize(f.kind)]
    {
      if obs.None? || field.None? || !buf {
        return -EINVAL, [];
      }
      var f := field.value;
      if !Readable(f.flags) {
        return -EACCES, [];
      }
      if !registry[obs.value].hasBuffer {
        return -EAGAIN, [];
      }
      var size := TypeSize(f.kind);
      out := values[obs.value][f.offset..f.offset + size];
      ret := size;
    }

    /**
     * settings_field_set: -EINVAL for a missing argument, -EACCES for a
     * field without SETTING_FLAG_W, -EAGAIN without a value buffer, the
     * validator's error on the value with the field replaced; otherwise
     * the field is written, the observable published, and what the publish
     * returned (`publishRet`) is returned.
     */
    method FieldSet(obs: Option<nat>, field: Option<Field>, buf: Option<seq<byte>>, publishRet: int) returns (ret: int)
      requires Valid() && (obs.Some? ==> obs.value < |registry|)
      requires obs.Some? && field.Some? ==> field.value.offset + TypeSize(field.value.kind) <= registry[obs.value].size
      requires field.Some? && buf.Some? ==> TypeSize(field.value.kind) <= |buf.value|
      modifies this`values, this`published
      ensures Valid() && registry == old(registry)
      ensures obs.None? || field.None? || buf.None? ==> ret == -EINVAL && values == old(values) && published == old(published)
      ensures obs.Some? && field.Some? && buf.Some? ==>
        var k := obs.value;
        var f := field.value;
        var image := FieldImage(old(values[k]), f, buf.value);
        if !Writable(f.flags) then ret == -EACCES && values == old(values) && published == old(published)
        else if !registry[k].hasBuffer then ret == -EAGAIN && values == old(values) && published == old(published)
        else if Validate(registry[k], image) < 0 then
          ret == Validate(registry[k], image) && values == old(values) && published == old(published)
        else ret == publishRet && values == old(values)[k := image] && published == old(published) + [k]
    {
      if obs.None? || field.None? || buf.None? {
        return -EINVAL;
      }
      var k := obs.value;
      var f := field.value;
      if !Writable(f.flags) {
        return -EACCES;
      }
      if !registry[k].hasBuffer {
        return -EAGAIN;
      }
      var temp := FieldImage(values[k], f, buf.value);
      if registry[k].validator.Some? {
        ret := registry[k].validator.value(temp);
        if ret < 0 {
          return;
        }
      }
      values := values[k := temp];
      published := published + [k];
      ret := publishRet;
    }
  }
}

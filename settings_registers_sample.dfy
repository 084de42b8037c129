// The two groups of the register-mapped settings sample: the motor group
// (libs/weave/samples/settings_registers/src/motor_settings.c) and the
// network group (samples/settings_registers/src/network_settings.c), with
// their field tables and validators, registered motor first
// (samples/settings_registers/src/main.c), and what the sample's tests
// expect of them, stated over the settings registry model.
module SettingsRegistersSample {
  import opened Wrappers
  import opened Errno
  import opened Bytes
  import opened SettingsTable
  import opened SettingsRegisters

  /**
   * sizeof(struct motor_config): speed and accel (uint16_t), enabled
   * (bool), direction and status (uint8_t), temp (int8_t), position
   * (int16_t).
   */
  const MOTOR_SIZE: nat := 10
  /** sizeof(struct network_config): ip_addr (uint32_t), port (uint16_t), dhcp_enabled (bool), padded to 8. */
  const NETWORK_SIZE: nat := 8

  /** motor_fields: register, struct offset, type, flags. */
  const SPEED: Field := Field("speed", 0x00, 0, ST_U16, ST_FLAG_RW)
  const ACCEL: Field := Field("accel", 0x02, 2, ST_U16, ST_FLAG_RW)
  const ENABLED: Field := Field("enabled", 0x04, 4, ST_BOOL, ST_FLAG_RW)
  const DIRECTION: Field := Field("direction", 0x05, 5, ST_U8, ST_FLAG_RW)
  const STATUS: Field := Field("status", 0x06, 6, ST_U8, ST_FLAG_R)
  const TEMP: Field := Field("temp", 0x07, 7, ST_I8, ST_FLAG_RW)
  const POSITION: Field := Field("position", 0x08, 8, ST_I16, ST_FLAG_RW)
  const MOTOR_FIELDS: seq<Field> := [SPEED, ACCEL, ENABLED, DIRECTION, STATUS, TEMP, POSITION]

  const MOTOR_GROUP: Group := Group("motor", 0x100, MOTOR_SIZE, MOTOR_FIELDS)

  /** network_fields. */
  const IP_ADDR: Field := Field("ip_addr", 0x00, 0, ST_U32, ST_FLAG_RW)
  const PORT: Field := Field("port", 0x04, 4, ST_U16, ST_FLAG_RW)
  const DHCP: Field := Field("dhcp_enabled", 0x06, 6, ST_BOOL, ST_FLAG_RW)
  const NETWORK_FIELDS: seq<Field> := [IP_ADDR, PORT, DHCP]

  const NETWORK_GROUP: Group := Group("network", 0x200, NETWORK_SIZE, NETWORK_FIELDS)

  /** A little-endian uint16_t of an image. */
  function U16At(image: seq<byte>, off: nat): (v: nat)
    requires off + 2 <= |image|
    ensures v < U16_LIMIT
  {
    Pow256Values();
    DecodeLE(image[off..off + 2])
  }

  /** motor_validate: speed at most 10000, accel at most 5000, direction at most 1. */
  function MotorValidate(image: seq<byte>): (e: int)
  {
    if |image| < MOTOR_SIZE then 0
    else if U16At(image, 0) > 10000 then -EINVAL
    else if U16At(image, 2) > 5000 then -EINVAL
    else if image[5] > 1 then -EINVAL
    else 0
  }

  /** network_validate: the port must not be 0. */
  function NetworkValidate(image: seq<byte>): (e: int)
  {
    if |image| >= NETWORK_SIZE && U16At(image, 4) == 0 then -EINVAL else 0
  }

  const MOTOR_OBS: Observable := Observable(Some(MOTOR_GROUP), MOTOR_SIZE, true, Some(MotorValidate))
  const NETWORK_OBS: Observable := Observable(Some(NETWORK_GROUP), NETWORK_SIZE, true, Some(NetworkValidate))

  /** main registers the motor observable, then the network one. */
  const REGISTRY: seq<Observable> := [MOTOR_OBS, NETWORK_OBS]

  // ---- The validators ----

  /** motor_validate refuses exactly an image with speed above 10000, accel above 5000 or direction above 1. */
  lemma MotorValidateMeans(image: seq<byte>)
    requires |image| == MOTOR_SIZE
    ensures MotorValidate(image) < 0 <==>
      ReadValue(ST_U16, image, 0) > 10000 || ReadValue(ST_U16, image, 2) > 5000 || ReadValue(ST_U8, image, 5) > 1
    ensures MotorValidate(image) == 0 || MotorValidate(image) == -EINVAL
  {
    assert image[5..6] == [image[5]];
    assert DecodeLE(image[5..6]) == image[5];
  }

  /** network_validate refuses exactly an image whose port is 0. */
  lemma NetworkValidateMeans(image: seq<byte>)
    requires |image| == NETWORK_SIZE
    ensures NetworkValidate(image) == (if ReadValue(ST_U16, image, 4) == 0 then -EINVAL else 0)
  {
  }

  // ---- What the sample's tests expect ----

  /** Each group lies inside its struct, so the registry of the sample is a valid one. */
  lemma SampleRegistryFits()
    ensures |REGISTRY| <= SETTINGS_MAX_OBSERVABLES
    ensures forall k | 0 <= k < |REGISTRY| :: GroupFits(REGISTRY[k])
    ensures forall j | 0 <= j < |MOTOR_FIELDS| :: MOTOR_FIELDS[j].offset + TypeSize(MOTOR_FIELDS[j].kind) <= MOTOR_SIZE
    ensures forall j | 0 <= j < |NETWORK_FIELDS| :: NETWORK_FIELDS[j].offset + TypeSize(NETWORK_FIELDS[j].kind) <= NETWORK_SIZE
  {
  }

  /** The motor registers 0x100 speed, 0x106 status, 0x107 temp and 0x108 position. */
  lemma MotorLookups()
    ensures FindRegFrom(REGISTRY, 0x100, 0) == Some(FieldRef(0, 0))
    ensures FindRegFrom(REGISTRY, 0x106, 0) == Some(FieldRef(0, 4))
    ensures FindRegFrom(REGISTRY, 0x107, 0) == Some(FieldRef(0, 5))
    ensures FindRegFrom(REGISTRY, 0x108, 0) == Some(FieldRef(0, 6))
  {
    Pow256Values();
    assert FieldFrom(MOTOR_GROUP, 0x106, 4) == Some(4);
    assert FieldFrom(MOTOR_GROUP, 0x107, 5) == Some(5);
    assert FieldFrom(MOTOR_GROUP, 0x108, 6) == Some(6);
  }

  /** The network registers 0x200 ip_addr and 0x204 port, found after the whole motor table. */
  lemma NetworkLookups()
    ensures FindRegFrom(REGISTRY, 0x200, 0) == Some(FieldRef(1, 0))
    ensures FindRegFrom(REGISTRY, 0x204, 0) == Some(FieldRef(1, 1))
  {
    Pow256Values();
    assert FieldFrom(MOTOR_GROUP, 0x200, 0) == None;
    assert FieldFrom(MOTOR_GROUP, 0x204, 0) == None;
    assert FieldFrom(NETWORK_GROUP, 0x204, 1) == Some(1);
    assert FindRegFrom(REGISTRY, 0x200, 1) == Some(FieldRef(1, 0));
    assert FindRegFrom(REGISTRY, 0x204, 1) == Some(FieldRef(1, 1));
  }

  /** Register 0x999 is neither a field nor inside a group. */
  lemma UnknownRegister()
    ensures FindRegFrom(REGISTRY, 0x999, 0) == None
    ensures ObsFrom(REGISTRY, 0x999, 0) == None
  {
    Pow256Values();
    assert FieldFrom(MOTOR_GROUP, 0x999, 0) == None;
    assert FieldFrom(NETWORK_GROUP, 0x999, 0) == None;
    assert FindRegFrom(REGISTRY, 0x999, 1) == None;
  }

  /** A two-byte field write leaves lo + 256 * hi at the field's offset and the other bytes as they were. */
  lemma U16FieldWrite(v: seq<byte>, f: Field, lo: byte, hi: byte)
    requires TypeSize(f.kind) == 2 && f.offset + 2 <= |v|
    ensures var r := FieldImage(v, f, [lo, hi]);
      U16At(r, f.offset) == lo + 256 * hi
      && forall k | 0 <= k < |v| && !(f.offset <= k < f.offset + 2) :: r[k] == v[k]
  {
    var r := FieldImage(v, f, [lo, hi]);
    assert r[f.offset..f.offset + 2] == [lo, hi];
    assert DecodeLE([lo, hi]) == lo + 256 * DecodeLE([hi]) by {
      assert [lo, hi][1..] == [hi];
    }
    assert DecodeLE([hi]) == hi by {
      assert [hi][1..] == [];
    }
  }

  /** Speed 10001 is refused by motor_validate and 10000 accepted, on an image it accepted before. */
  lemma SpeedFieldWrites(v: seq<byte>)
    requires |v| == MOTOR_SIZE && MotorValidate(v) == 0
    ensures MotorValidate(FieldImage(v, SPEED, [0x11, 0x27])) == -EINVAL
    ensures MotorValidate(FieldImage(v, SPEED, [0x10, 0x27])) == 0
  {
    U16FieldWrite(v, SPEED, 0x11, 0x27);
    U16FieldWrite(v, SPEED, 0x10, 0x27);
    var b := FieldImage(v, SPEED, [0x10, 0x27]);
    assert b[2..4] == v[2..4];
  }

  /** Accel 5001 and direction 2 are refused by motor_validate. */
  lemma AccelDirectionFieldWrites(v: seq<byte>)
    requires |v| == MOTOR_SIZE && MotorValidate(v) == 0
    ensures MotorValidate(FieldImage(v, ACCEL, [0x89, 0x13])) == -EINVAL
    ensures MotorValidate(FieldImage(v, DIRECTION, [2])) == -EINVAL
  {
    U16FieldWrite(v, ACCEL, 0x89, 0x13);
    var c := FieldImage(v, ACCEL, [0x89, 0x13]);
    assert c[0..2] == v[0..2];
    var d := FieldImage(v, DIRECTION, [2]);
    assert d[0..2] == v[0..2] && d[2..4] == v[2..4] && d[5] == 2;
  }

  /** The status field is readable and not writable, so settings_field_set refuses it with -EACCES. */
  lemma StatusReadOnly()
    ensures Readable(STATUS.flags) && !Writable(STATUS.flags)
  {
  }

  /** Port 443 is accepted and port 0 refused. */
  lemma NetworkPortWrites(v: seq<byte>)
    requires |v| == NETWORK_SIZE
    ensures NetworkValidate(FieldImage(v, PORT, [0xBB, 0x01])) == 0
    ensures NetworkValidate(FieldImage(v, PORT, [0, 0])) == -EINVAL
  {
    U16FieldWrite(v, PORT, 0xBB, 0x01);
    U16FieldWrite(v, PORT, 0, 0);
  }

  /**
   * A bulk write of e8 03 at 0x100 moves two bytes and leaves speed 1000;
   * a bulk read of four bytes at 0x102 moves four bytes.
   */
  lemma SampleBulk(v: seq<byte>)
    requires |v| == MOTOR_SIZE
    ensures ObsFrom(REGISTRY, 0x100, 0) == Some(Window(0, 0))
    ensures ObsFrom(REGISTRY, 0x102, 0) == Some(Window(0, 2))
    ensures Transfer(MOTOR_SIZE, MOTOR_SIZE, 0, 2) == 2
    ensures U16At(Splice(v, 0, [0xE8, 0x03]), 0) == 1000
    ensures Transfer(MOTOR_SIZE, MOTOR_SIZE, 2, 4) == 4
  {
    Pow256Values();
    var a := Splice(v, 0, [0xE8, 0x03]);
    assert a[0..2] == [0xE8, 0x03];
  }

  /**
   * A bulk write consults no validator: the two bytes of speed 10001 go
   * through settings_write into an image that motor_validate refuses.
   */
  lemma BulkWriteSkipsValidator(v: seq<byte>)
    requires |v| == MOTOR_SIZE
    ensures Transfer(MOTOR_SIZE, MOTOR_SIZE, 0, 2) == 2
    ensures MotorValidate(Splice(v, 0, [0x11, 0x27])) == -EINVAL
  {
    Pow256Values();
    var a := Splice(v, 0, [0x11, 0x27]);
    assert a[0..2] == [0x11, 0x27];
  }
}

// The two register areas of the settings table sample
// (samples/settings_table/src/motor_settings.c and sensor_settings.c): their
// register tables, their cross-register validators, and what the sample's
// shell tests expect of them, stated over the settings table model.
module SettingsTableSample {
  import opened Wrappers
  import opened Errno
  import opened Bytes
  import opened SettingsTable

  const MOTOR_BASE_ADDR: nat := 0x0100
  const SENSOR_BASE_ADDR: nat := 0x0200

  /** sizeof(struct motor_config): speed, accel (uint16_t), direction, enabled, status, _reserved (uint8_t). */
  const MOTOR_SIZE: nat := 8
  /** sizeof(struct sensor_config): sample_rate, temp_offset, gain, channel_mask and three padding bytes. */
  const SENSOR_SIZE: nat := 12

  /** IEEE single-precision bit patterns of 0.1f, 10.0f and 1.0f. */
  const F32_0_1: nat := 0x3DCC_CCCD
  const F32_10_0: nat := 0x4120_0000
  const F32_1_0: nat := 0x3F80_0000

  /** motor_regs: address, struct offset, type, flags, min, max, default. */
  const MOTOR_REGS: seq<Reg> := [
    Reg(0x00, 0, ST_U16, ST_FLAG_RW, 0, 10000, 1000),  // speed
    Reg(0x02, 2, ST_U16, ST_FLAG_RW, 0, 5000, 500),    // accel
    Reg(0x04, 4, ST_U8, ST_FLAG_RW, 0, 1, 0),          // direction
    Reg(0x05, 5, ST_U8, ST_FLAG_RW, 0, 1, 0),          // enabled
    Reg(0x06, 6, ST_U8, ST_FLAG_R, 0, 2, 0)            // status
  ]

  /** sensor_regs; gain's bounds and default are float bit patterns. */
  const SENSOR_REGS: seq<Reg> := [
    Reg(0x00, 0, ST_U16, ST_FLAG_RW, 1, 1000, 100),    // sample_rate
    Reg(0x02, 2, ST_I16, ST_FLAG_RW, -50, 50, 0),      // temp_offset
    Reg(0x04, 4, ST_F32, ST_FLAG_RW, F32_0_1, F32_10_0, F32_1_0),  // gain
    Reg(0x08, 8, ST_U8, ST_FLAG_RW, 1, 0xFF, 0x0F)     // channel_mask
  ]

  /** motor_validate: the motor cannot be enabled with a zero speed. */
  function MotorValidate(image: seq<byte>): (e: int)
  {
    if |image| >= MOTOR_SIZE && image[5] != 0 && DecodeLE(image[0..2]) == 0 then -EINVAL else 0
  }

  /** sensor_validate: at least one channel must be enabled. */
  function SensorValidate(image: seq<byte>): (e: int)
  {
    if |image| >= SENSOR_SIZE && image[8] == 0 then -EINVAL else 0
  }

  const MOTOR_AREA: Area := Area("motor", MOTOR_BASE_ADDR, MOTOR_SIZE, Registers(RegCtx(MOTOR_REGS, Some(MotorValidate))))
  const SENSOR_AREA: Area := Area("sensor", SENSOR_BASE_ADDR, SENSOR_SIZE, Registers(RegCtx(SENSOR_REGS, Some(SensorValidate))))

  /** The iterable section holds the areas sorted by name: motor, then sensor. */
  const AREAS: seq<Area> := [MOTOR_AREA, SENSOR_AREA]

  /** The speed and enabled registers of a motor image. */
  function Speed(image: seq<byte>): (v: nat)
    requires |image| == MOTOR_SIZE
    ensures v < U16_LIMIT
  {
    Pow256Values();
    ReadValue(ST_U16, image, 0)
  }

  // ---- The validators ----

  /** motor_validate refuses exactly an image with enabled set and speed 0. */
  lemma MotorValidateMeans(image: seq<byte>)
    requires |image| == MOTOR_SIZE
    ensures MotorValidate(image) == (if ReadValue(ST_U8, image, 5) != 0 && Speed(image) == 0 then -EINVAL else 0)
  {
    assert image[5..6] == [image[5]];
    assert DecodeLE(image[5..6]) == image[5];
  }

  /** sensor_validate refuses exactly an image whose channel mask is 0. */
  lemma SensorValidateMeans(image: seq<byte>)
    requires |image| == SENSOR_SIZE
    ensures SensorValidate(image) == (if ReadValue(ST_U8, image, 8) == 0 then -EINVAL else 0)
  {
    assert image[8..9] == [image[8]];
    assert DecodeLE(image[8..9]) == image[8];
  }

  // ---- The tables pass SYS_INIT ----

  lemma MotorRegsChecked()
    ensures RegAreaFrom(MOTOR_SIZE, MOTOR_REGS, 0) == 0
  {
    Pow256Values();
    assert Packed(MOTOR_REGS);
    PackedWellFormed(MOTOR_SIZE, MOTOR_REGS);
    RegAreaComplete(MOTOR_SIZE, MOTOR_REGS);
  }

  lemma SensorRegsChecked()
    ensures RegAreaFrom(SENSOR_SIZE, SENSOR_REGS, 0) == 0
  {
    Pow256Values();
    assert Packed(SENSOR_REGS);
    PackedWellFormed(SENSOR_SIZE, SENSOR_REGS);
    RegAreaComplete(SENSOR_SIZE, SENSOR_REGS);
  }

  /**
   * The two areas do not clash and both register tables pass
   * validate_reg_area, so SYS_INIT runs to the end and initializes the
   * table.
   */
  lemma SampleInitializes()
    ensures AddressesOk(AREAS)
    ensures Checked(MOTOR_AREA) && Checked(SENSOR_AREA)
    ensures InitStop(AreaCodes(AREAS), 0) == |AREAS|
  {
    Pow256Values();
    MotorRegsChecked();
    SensorRegsChecked();
    assert !AreasClash(AREAS[0], AREAS[1]);
    var codes := AreaCodes(AREAS);
    assert codes[0] == 0 && codes[1] == 0;
    assert InitStop(codes, 2) == 2;
  }

  /** The registers of each table lie apart in the struct, so each default is read back as written. */
  lemma SampleOffsetsApart()
    ensures OffsetsApart(MOTOR_REGS) && OffsetsApart(SENSOR_REGS)
  {
    assert Packed(MOTOR_REGS) && Packed(SENSOR_REGS);
    forall a, b | 0 <= a < b < |MOTOR_REGS|
      ensures Apart(MOTOR_REGS[a], MOTOR_REGS[b]) && Apart(MOTOR_REGS[b], MOTOR_REGS[a])
    {
      PackedApart(MOTOR_REGS, a, b);
    }
    forall a, b | 0 <= a < b < |SENSOR_REGS|
      ensures Apart(SENSOR_REGS[a], SENSOR_REGS[b]) && Apart(SENSOR_REGS[b], SENSOR_REGS[a])
    {
      PackedApart(SENSOR_REGS, a, b);
    }
  }

  /**
   * After SYS_INIT (or a reset) the motor reads speed 1000 and accel 500,
   * and the sensor reads sample_rate 100, whatever the images held before.
   */
  lemma SampleDefaults(m: seq<byte>, s: seq<byte>)
    requires |m| == MOTOR_SIZE && |s| == SENSOR_SIZE
    ensures ReadValue(ST_U16, WithDefaults(m, MOTOR_REGS), 0) == 1000
    ensures ReadValue(ST_U16, WithDefaults(m, MOTOR_REGS), 2) == 500
    ensures ReadValue(ST_U16, WithDefaults(s, SENSOR_REGS), 0) == 100
    ensures ReadValue(ST_U8, WithDefaults(s, SENSOR_REGS), 8) == 0x0F
  {
    Pow256Values();
    SampleOffsetsApart();
    DefaultsRestored(m, MOTOR_REGS, 0);
    DefaultsRestored(m, MOTOR_REGS, 1);
    DefaultsRestored(s, SENSOR_REGS, 0);
    DefaultsRestored(s, SENSOR_REGS, 3);
  }

  // ---- What the shell tests expect ----

  /** Address 0x0100 is the motor's speed register, 0x0106 its status, and 0x0202 the sensor's temp_offset. */
  lemma SampleLookups()
    ensures RegFor(AREAS, 0x0100) == Some(RegRef(0, 0))
    ensures RegFor(AREAS, 0x0106) == Some(RegRef(0, 4))
    ensures RegFor(AREAS, 0x0200) == Some(RegRef(1, 0))
    ensures RegFor(AREAS, 0x0202) == Some(RegRef(1, 1))
    ensures AreaFor(AREAS, 0x9999) == None
  {
    assert AreaFor(AREAS, 0x0100) == Some(0);
    assert AreaFor(AREAS, 0x0106) == Some(0);
    assert !Contains(AREAS[0], 0x0200) && AreaFrom(AREAS, 0x0200, 1) == Some(1);
    assert AreaFor(AREAS, 0x0200) == Some(1);
    assert !Contains(AREAS[0], 0x0202) && AreaFrom(AREAS, 0x0202, 1) == Some(1);
    assert AreaFor(AREAS, 0x0202) == Some(1);
    assert RegFrom(MOTOR_REGS, 6, 4) == Some(4);
    assert RegFrom(SENSOR_REGS, 2, 1) == Some(1);
  }

  /** A speed of 10001 is out of range and 5000 or 9999 are in it; a sample rate of 0 is out of range. */
  lemma SampleRanges()
    ensures !ValidateRange(MOTOR_REGS[0], 10001)
    ensures ValidateRange(MOTOR_REGS[0], 5000) && ValidateRange(MOTOR_REGS[0], 9999)
    ensures !ValidateRange(SENSOR_REGS[0], 0) && ValidateRange(SENSOR_REGS[0], 500)
    ensures ValidateRange(SENSOR_REGS[1], -25)
  {
  }

  /** The status register is read-only, so any byte write that reaches offset 6 of the motor area fails with -EROFS. */
  lemma StatusWriteRefused(m: seq<byte>, data: seq<byte>)
    requires |m| == MOTOR_SIZE && |data| == 1
    ensures WriteError(MOTOR_AREA.kind.ctx, m, 6, data) == -EROFS
  {
    Pow256Values();
    assert Touches(MOTOR_REGS[4], 6, 1) && !Writable(MOTOR_REGS[4].flags);
  }

  /** A two-byte write at offset 0 of the motor area touches speed and no other register. */
  lemma OnlySpeedTouched()
    ensures forall i | 0 <= i < |MOTOR_REGS| :: Touches(MOTOR_REGS[i], 0, 2) <==> i == 0
  {
    Pow256Values();
    assert U16(2) == 2;
  }

  /**
   * Writing the bytes 0x34 0x12 at the motor's address 0x0100 touches only
   * speed, is in range and keeps the validator happy, and speed then
   * reads 4660.
   */
  lemma SpeedBytesWrite(m: seq<byte>)
    requires |m| == MOTOR_SIZE
    ensures WriteError(MOTOR_AREA.kind.ctx, m, 0, [0x34, 0x12]) == 0
    ensures Speed(Proposed(m, 0, [0x34, 0x12])) == 4660
  {
    var p := Proposed(m, 0, [0x34, 0x12]);
    assert p[0..2] == [0x34, 0x12];
    assert DecodeLE(p[0..2]) == 4660;
    assert ReadValue(ST_U16, p, 0) == 4660;
    OnlySpeedTouched();
    assert !HitsReadOnly(MOTOR_REGS, 0, 2);
    assert !HitsOutOfRange(MOTOR_REGS, 0, 2, p);
  }

  /** A temp_offset of -25 is stored as a two's-complement int16_t and read back as -25. */
  lemma TempOffsetRoundTrip(s: seq<byte>)
    requires |s| == SENSOR_SIZE
    ensures ReadValue(ST_I16, WriteValue(ST_I16, s, 2, -25), 2) == -25
  {
    Pow256Values();
    ReadAfterWrite(ST_I16, s, 2, -25);
  }

  /** An enabled motor with speed 0 is refused whatever else the image holds. */
  lemma EnableWithoutSpeedRefused(m: seq<byte>)
    requires |m| == MOTOR_SIZE && Speed(m) == 0
    ensures Verdict(MOTOR_AREA.kind.ctx, WriteValue(ST_U8, m, 5, 1)) == -EINVAL
  {
    Pow256Values();
    var image := WriteValue(ST_U8, m, 5, 1);
    ReadAfterWrite(ST_U8, m, 5, 1);
    ReadAfterOtherWrite(ST_U8, m, 5, 1, ST_U16, 0);
    MotorValidateMeans(image);
  }
}

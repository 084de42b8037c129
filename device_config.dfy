// The device_config sample of the register mapper
// (register_mapper/samples/device_config/src): a sensor module with a
// status, a configuration and a command channel, a motor module with one
// configuration channel, and the application's register map over them.
//
// The sensor thread samples on a timer and consumes commands written to a
// self-clearing control register; the motor's listener recomputes its
// status and current draw whenever its channel is notified, and limits the
// speed while the sensor reports an alert. Whether each channel read or
// claim succeeds within its timeout is a parameter; the timer, the poll
// loop and the threads are not modelled. uint8_t status and control bytes
// are bv8 so that the source's bit operations carry over; uint32_t data
// wraps as it does in C.
module DeviceConfig {
  import opened Wrappers
  import opened Errno
  import opened Bytes
  import opened RegisterMapper

  // ---- The channels and their messages ----

  /** Channel indices into the mapper's channels, in the order the sample declares them. */
  const SENSOR_STATUS_CHAN: nat := 0
  const SENSOR_CONFIG_CHAN: nat := 1
  const SENSOR_COMMAND_CHAN: nat := 2
  const MOTOR_CHAN: nat := 3

  /** Each channel's message size: sizeof the four structs with their padding. */
  const CHANNEL_SIZES: seq<nat> := [8, 8, 4, 8]

  const SENSOR_CTRL_START: bv8 := 1
  const SENSOR_CTRL_STOP: bv8 := 2
  const SENSOR_CTRL_RESET: bv8 := 4

  const SENSOR_STATUS_READY: bv8 := 1
  const SENSOR_STATUS_RUNNING: bv8 := 2
  const SENSOR_STATUS_ERROR: bv8 := 4
  const SENSOR_STATUS_ALERT: bv8 := 8

  const MOTOR_DIR_FORWARD: byte := 0
  const MOTOR_DIR_REVERSE: byte := 1

  const MOTOR_STATUS_IDLE: bv8 := 1
  const MOTOR_STATUS_RUNNING: bv8 := 2
  const MOTOR_STATUS_FAULT: bv8 := 4

  /** The speed the motor is held to while the sensor reports an alert. */
  const ALERT_SPEED_LIMIT: nat := 5000

  /** How much each sample adds to the sensor's data. */
  const SAMPLE_STEP: nat := 10

  /** struct sensor_status. */
  datatype SensorStatus = SensorStatus(status: bv8, data: nat)

  /** struct sensor_config. */
  datatype SensorConfig = SensorConfig(threshold: nat, reserved: nat)

  /** struct sensor_command. */
  datatype SensorCommand = SensorCommand(control: bv8, reserved: seq<byte>)

  /** struct motor_config. */
  datatype MotorConfig = MotorConfig(status: bv8, direction: byte, speed: nat, acceleration: int, current: nat)

  predicate StatusOk(s: SensorStatus) { FitsIn(s.data, 4) }

  predicate ConfigOk(c: SensorConfig) { FitsIn(c.threshold, 4) && FitsIn(c.reserved, 4) }

  predicate CommandOk(c: SensorCommand) { |c.reserved| == 3 }

  predicate MotorOk(m: MotorConfig) {
    FitsIn(m.speed, 2) && -0x8000 <= m.acceleration < 0x8000 && FitsIn(m.current, 2)
  }

  /** The messages the channels are defined with. */
  const SENSOR_STATUS_INIT: SensorStatus := SensorStatus(SENSOR_STATUS_READY, 0)
  const SENSOR_CONFIG_INIT: SensorConfig := SensorConfig(2048, 0)
  const SENSOR_COMMAND_INIT: SensorCommand := SensorCommand(0, [0, 0, 0])
  const MOTOR_INIT: MotorConfig := MotorConfig(MOTOR_STATUS_IDLE, MOTOR_DIR_FORWARD, 0, 100, 0)

  // ---- The structs' memory layout ----

  /** The widths of the fields this sample uses. */
  lemma Widths()
    ensures Pow256(1) == 256 && Pow256(2) == U16_LIMIT && Pow256(4) == U32_LIMIT
  {
  }

  /** struct sensor_status in memory: the status byte, three padding bytes, data little-endian. */
  function EncodeStatus(s: SensorStatus): (r: seq<byte>)
    requires StatusOk(s)
    ensures |r| == CHANNEL_SIZES[SENSOR_STATUS_CHAN]
  {
    Widths();
    [s.status as byte, 0, 0, 0] + EncodeLE(s.data, 4)
  }

  function EncodeConfig(c: SensorConfig): (r: seq<byte>)
    requires ConfigOk(c)
    ensures |r| == CHANNEL_SIZES[SENSOR_CONFIG_CHAN]
  {
    EncodeLE(c.threshold, 4) + EncodeLE(c.reserved, 4)
  }

  function EncodeCommand(c: SensorCommand): (r: seq<byte>)
    requires CommandOk(c)
    ensures |r| == CHANNEL_SIZES[SENSOR_COMMAND_CHAN]
  {
    [c.control as byte] + c.reserved
  }

  function EncodeMotor(m: MotorConfig): (r: seq<byte>)
    requires MotorOk(m)
    ensures |r| == CHANNEL_SIZES[MOTOR_CHAN]
  {
    Widths();
    [m.status as byte, m.direction] + EncodeLE(m.speed, 2)
    + EncodeLE(ToUnsigned(m.acceleration, 2), 2) + EncodeLE(m.current, 2)
  }

  // ---- The register map (register_map.c) ----

  const REG_SENSOR_STATUS: Mapping := Mapping(0x1000, SENSOR_STATUS_CHAN, 0, REG_TYPE_U8, REG_FLAGS_RO)
  const REG_MOTOR_STATUS: Mapping := Mapping(0x1004, MOTOR_CHAN, 0, REG_TYPE_U8, REG_FLAGS_RO)
  const REG_MOTOR_CURRENT: Mapping := Mapping(0x1006, MOTOR_CHAN, 6, REG_TYPE_U16, REG_FLAGS_RO)
  const REG_SENSOR_THRESHOLD: Mapping := Mapping(0x2000, SENSOR_CONFIG_CHAN, 0, REG_TYPE_U32, REG_FLAGS_RW)
  const REG_MOTOR_DIRECTION: Mapping := Mapping(0x2010, MOTOR_CHAN, 1, REG_TYPE_U8, REG_FLAGS_RW)
  const REG_MOTOR_SPEED: Mapping := Mapping(0x2012, MOTOR_CHAN, 2, REG_TYPE_U16, REG_FLAGS_RW)
  const REG_MOTOR_ACCELERATION: Mapping := Mapping(0x2014, MOTOR_CHAN, 4, REG_TYPE_I16, REG_FLAGS_RW)
  const REG_SENSOR_DATA: Mapping := Mapping(0x3000, SENSOR_STATUS_CHAN, 4, REG_TYPE_U32, REG_FLAGS_RO)
  const REG_SENSOR_CONTROL: Mapping := Mapping(0x4000, SENSOR_COMMAND_CHAN, 0, REG_TYPE_U8, REG_FLAGS_WO)

  /**
   * The iterable section as the linker lays it out: the section names
   * carry the addresses in four-digit hex, so name order is address order.
   */
  const REGISTER_MAP: seq<Mapping> := [
    REG_SENSOR_STATUS, REG_MOTOR_STATUS, REG_MOTOR_CURRENT,
    REG_SENSOR_THRESHOLD, REG_MOTOR_DIRECTION, REG_MOTOR_SPEED, REG_MOTOR_ACCELERATION,
    REG_SENSOR_DATA,
    REG_SENSOR_CONTROL
  ]

  /**
   * The map passes what REG_MAPPING_DEFINE's build assertions and the
   * mapper's lookup need: addresses strictly increasing, every field
   * inside its channel's message, and no two registers sharing an address.
   */
  lemma RegisterMapOk()
    ensures TableOk(REGISTER_MAP, CHANNEL_SIZES)
    ensures Spaced(REGISTER_MAP) && !AnyOverlap(REGISTER_MAP)
  {
    var maps := REGISTER_MAP;
    assert Spaced(maps);
    forall i, j | 0 <= i < j < |maps| ensures maps[i].address < maps[j].address {
      SpacedApart(maps, i, j);
    }
    SpacedNoOverlap(maps);
  }

  /**
   * Access through the map: status, current and data registers are
   * read-only, the control register is write-only, and a write needs the
   * register's own type.
   */
  lemma RegisterMapAccess(v: nat)
    ensures ReadStatus(REGISTER_MAP, 0x4000, true, 0) == -EACCES
    ensures WriteStatus(REGISTER_MAP, 0x1000, RegValue(REG_TYPE_U8, v), 0) == -EACCES
    ensures WriteStatus(REGISTER_MAP, 0x3000, RegValue(REG_TYPE_U32, v), 0) == -EACCES
    ensures WriteStatus(REGISTER_MAP, 0x2012, RegValue(REG_TYPE_U32, v), 0) == -EINVAL
    ensures WriteStatus(REGISTER_MAP, 0x4000, RegValue(REG_TYPE_U8, v), 0) == 0
    ensures ReadStatus(REGISTER_MAP, 0x1001, true, 0) == -ENOENT
  {
    assert REGISTER_MAP[8] == REG_SENSOR_CONTROL;
    assert LookupFrom(REGISTER_MAP, 0x4000, 8) == Some(8);
    assert LookupFrom(REGISTER_MAP, 0x1000, 0) == Some(0);
    assert LookupFrom(REGISTER_MAP, 0x3000, 7) == Some(7);
    assert LookupFrom(REGISTER_MAP, 0x2012, 5) == Some(5);
  }

  /** Sequence surgery: splicing over the middle part of a concatenation replaces that part. */
  lemma SpliceMiddle(a: seq<byte>, mid: seq<byte>, b: seq<byte>, w: seq<byte>)
    requires |w| == |mid|
    ensures Splice(a + mid + b, |a|, w) == a + w + b
  {
    var s := a + mid + b;
    assert s[..|a|] == a;
    assert s[|a| + |w|..] == b;
  }

  /** Reading the middle part of a concatenation reads that part. */
  lemma ReadMiddle(a: seq<byte>, w: seq<byte>, b: seq<byte>)
    ensures ReadLE(a + w + b, |a|, |w|) == DecodeLE(w)
  {
    assert (a + w + b)[|a|..|a| + |w|] == w;
  }

  /** The motor message as its five fields' byte strings. */
  lemma MotorParts(m: MotorConfig)
    requires MotorOk(m)
    ensures Pow256(2) == U16_LIMIT
    ensures EncodeMotor(m) == [m.status as byte] + [m.direction] + EncodeLE(m.speed, 2)
                              + EncodeLE(ToUnsigned(m.acceleration, 2), 2) + EncodeLE(m.current, 2)
  {
    Widths();
  }

  /** A write through the direction register changes only the direction, cut to one byte. */
  lemma MotorDirectionWrite(m: MotorConfig, val: nat)
    requires MotorOk(m)
    ensures Store(EncodeMotor(m), REG_MOTOR_DIRECTION, RegValue(REG_TYPE_U8, val))
            == EncodeMotor(m.(direction := Trunc(val, 1)))
  {
    MotorParts(m);
    MotorParts(m.(direction := Trunc(val, 1)));
    var rest := EncodeLE(m.speed, 2) + EncodeLE(ToUnsigned(m.acceleration, 2), 2) + EncodeLE(m.current, 2);
    assert EncodeMotor(m) == [m.status as byte] + [m.direction] + rest;
    var b := Trunc(val, 1);
    assert EncodeLE(b, 1) == [b % 256] + EncodeLE(b / 256, 0);
    SpliceMiddle([m.status as byte], [m.direction], rest, EncodeLE(b, 1));
  }

  /** A write through the speed register changes only the speed, cut to 16 bits. */
  lemma MotorSpeedWrite(m: MotorConfig, val: nat)
    requires MotorOk(m)
    ensures Store(EncodeMotor(m), REG_MOTOR_SPEED, RegValue(REG_TYPE_U16, val))
            == EncodeMotor(m.(speed := Trunc(val, 2)))
  {
    MotorParts(m);
    MotorParts(m.(speed := Trunc(val, 2)));
    var front := [m.status as byte] + [m.direction];
    var rest := EncodeLE(ToUnsigned(m.acceleration, 2), 2) + EncodeLE(m.current, 2);
    assert EncodeMotor(m) == front + EncodeLE(m.speed, 2) + rest;
    SpliceMiddle(front, EncodeLE(m.speed, 2), rest, EncodeLE(Trunc(val, 2), 2));
  }

  /** A write through the acceleration register stores its low 16 bits, read back as two's complement. */
  lemma MotorAccelerationWrite(m: MotorConfig, val: nat)
    requires MotorOk(m)
    ensures Store(EncodeMotor(m), REG_MOTOR_ACCELERATION, RegValue(REG_TYPE_I16, val))
            == EncodeMotor(m.(acceleration := ToSigned(Trunc(val, 2), 2)))
  {
    MotorParts(m);
    var u := Trunc(val, 2);
    UnsignedRoundTrip(u, 2);
    MotorParts(m.(acceleration := ToSigned(u, 2)));
    var front := [m.status as byte] + [m.direction] + EncodeLE(m.speed, 2);
    var ac := EncodeLE(ToUnsigned(m.acceleration, 2), 2);
    SpliceMiddle(front, ac, EncodeLE(m.current, 2), EncodeLE(u, 2));
  }

  /** The sensor's status and data registers read the status byte and the data word. */
  lemma SensorStatusRegistersRead(s: SensorStatus)
    requires StatusOk(s)
    ensures Load(EncodeStatus(s), REG_SENSOR_STATUS) == s.status as int
    ensures Load(EncodeStatus(s), REG_SENSOR_DATA) == s.data
  {
    var e := EncodeStatus(s);
    assert e[0..1] == [s.status as byte];
    assert e[4..8] == EncodeLE(s.data, 4);
    DecodeEncodeLE(s.data, 4);
  }

  /** The motor's status and current registers read the status byte and the current draw. */
  lemma MotorStatusRegistersRead(m: MotorConfig)
    requires MotorOk(m)
    ensures Load(EncodeMotor(m), REG_MOTOR_STATUS) == m.status as int
    ensures Load(EncodeMotor(m), REG_MOTOR_CURRENT) == m.current
  {
    MotorParts(m);
    var rest := [m.direction] + EncodeLE(m.speed, 2) + EncodeLE(ToUnsigned(m.acceleration, 2), 2) + EncodeLE(m.current, 2);
    ReadMiddle([], [m.status as byte], rest);
    assert EncodeMotor(m) == [] + [m.status as byte] + rest;
    var front := [m.status as byte] + [m.direction] + EncodeLE(m.speed, 2) + EncodeLE(ToUnsigned(m.acceleration, 2), 2);
    ReadMiddle(front, EncodeLE(m.current, 2), []);
    assert EncodeMotor(m) == front + EncodeLE(m.current, 2) + [];
    DecodeEncodeLE(m.current, 2);
  }

  /**
   * A write through the threshold register changes only the threshold,
   * cut to 32 bits; the reserved word stays as it was.
   */
  lemma ThresholdWrite(c: SensorConfig, val: nat)
    requires ConfigOk(c)
    ensures Store(EncodeConfig(c), REG_SENSOR_THRESHOLD, RegValue(REG_TYPE_U32, val))
            == EncodeConfig(c.(threshold := Trunc(val, 4)))
  {
    SpliceMiddle([], EncodeLE(c.threshold, 4), EncodeLE(c.reserved, 4), EncodeLE(Trunc(val, 4), 4));
    assert EncodeConfig(c) == [] + EncodeLE(c.threshold, 4) + EncodeLE(c.reserved, 4);
  }

  /** A write through the control register sets the control byte; the reserved bytes stay. */
  lemma ControlWrite(cmd: SensorCommand, val: nat)
    requires CommandOk(cmd)
    ensures Store(EncodeCommand(cmd), REG_SENSOR_CONTROL, RegValue(REG_TYPE_U8, val))
            == EncodeCommand(cmd.(control := Trunc(val, 1) as bv8))
  {
    var b := Trunc(val, 1);
    assert EncodeLE(b, 1) == [b % 256] + EncodeLE(b / 256, 0);
    SpliceMiddle([], [cmd.control as byte], cmd.reserved, EncodeLE(b, 1));
    assert EncodeCommand(cmd) == [] + [cmd.control as byte] + cmd.reserved;
    assert (b as bv8) as int == b;
  }

  // ---- The sensor's rules ----

  predicate Running(s: SensorStatus) { s.status & SENSOR_STATUS_RUNNING != 0 }

  predicate Alert(status: bv8) { status & SENSOR_STATUS_ALERT != 0 }

  /**
   * The status after one sample under `threshold`: data grows by 10
   * (wrapping at 2^32), and the ALERT bit follows the comparison of the new
   * data with a non-zero threshold.
   */
  function Sampled(s: SensorStatus, threshold: nat): (r: SensorStatus)
    requires StatusOk(s)
    ensures StatusOk(r)
  {
    Widths();
    var data := Trunc(s.data + SAMPLE_STEP, 4);
    SensorStatus(if data > threshold && threshold > 0 then s.status | SENSOR_STATUS_ALERT
                 else s.status & !SENSOR_STATUS_ALERT, data)
  }

  /** What a non-zero control byte does to the status: RESET prevails over STOP, STOP over START. */
  function Commanded(s: SensorStatus, control: bv8): (r: SensorStatus)
    requires StatusOk(s)
    ensures StatusOk(r)
  {
    if control & SENSOR_CTRL_RESET != 0 then SensorStatus(SENSOR_STATUS_READY, 0)
    else if control & SENSOR_CTRL_STOP != 0 then SensorStatus(s.status & !SENSOR_STATUS_RUNNING, 0)
    else if control & SENSOR_CTRL_START != 0 then s.(status := s.status | SENSOR_STATUS_RUNNING)
    else s
  }

  /**
   * One sample: data is 10 more modulo 2^32; ALERT ends up set exactly when
   * the new data exceeds a non-zero threshold; every other status bit
   * stays as it was.
   */
  lemma SampledMeans(s: SensorStatus, threshold: nat)
    requires StatusOk(s)
    ensures Sampled(s, threshold).data == (s.data + SAMPLE_STEP) % U32_LIMIT
    ensures Alert(Sampled(s, threshold).status) <==> (Sampled(s, threshold).data > threshold && threshold > 0)
    ensures Sampled(s, threshold).status & !SENSOR_STATUS_ALERT == s.status & !SENSOR_STATUS_ALERT
    ensures Running(Sampled(s, threshold)) == Running(s)
  {
    Widths();
  }

  /** `k` samples in a row under one threshold. */
  function Samples(s: SensorStatus, threshold: nat, k: nat): (r: SensorStatus)
    requires StatusOk(s)
    ensures StatusOk(r)
  {
    if k == 0 then s else Sampled(Samples(s, threshold, k - 1), threshold)
  }

  /**
   * After `k` samples the data is 10k more modulo 2^32, RUNNING and the
   * other non-ALERT bits are untouched, and once at least one sample has
   * run ALERT reflects only the last comparison.
   */
  lemma {:induction false} SamplesMean(s: SensorStatus, threshold: nat, k: nat)
    requires StatusOk(s)
    ensures Samples(s, threshold, k).data == (s.data + SAMPLE_STEP * k) % U32_LIMIT
    ensures Samples(s, threshold, k).status & !SENSOR_STATUS_ALERT == s.status & !SENSOR_STATUS_ALERT
    ensures k > 0 ==> (Alert(Samples(s, threshold, k).status) <==>
                       (Samples(s, threshold, k).data > threshold && threshold > 0))
  {
    if k > 0 {
      var p := Samples(s, threshold, k - 1);
      SamplesMean(s, threshold, k - 1);
      SampledMeans(p, threshold);
      ModAddStep(s.data + SAMPLE_STEP * (k - 1), SAMPLE_STEP);
    }
  }

  lemma ModAddStep(x: nat, d: nat)
    ensures (x % U32_LIMIT + d) % U32_LIMIT == (x + d) % U32_LIMIT
  {
    var q := x / U32_LIMIT;
    assert x == q * U32_LIMIT + x % U32_LIMIT;
    assert x + d == q * U32_LIMIT + (x % U32_LIMIT + d);
  }

  /** From boot, START and then `k` samples below 2^32: the data is 10k and ALERT says whether 10k passed 2048. */
  lemma StartThenSample(k: nat)
    requires SAMPLE_STEP * k < U32_LIMIT
    ensures var s := Samples(Commanded(SENSOR_STATUS_INIT, SENSOR_CTRL_START), SENSOR_CONFIG_INIT.threshold, k);
      s.data == SAMPLE_STEP * k && Running(s)
      && (k > 0 ==> (Alert(s.status) <==> SAMPLE_STEP * k > 2048))
  {
    var s0 := Commanded(SENSOR_STATUS_INIT, SENSOR_CTRL_START);
    assert s0 == SensorStatus(SENSOR_STATUS_READY | SENSOR_STATUS_RUNNING, 0);
    SamplesMean(s0, SENSOR_CONFIG_INIT.threshold, k);
  }

  /**
   * The command rules: RESET leaves READY alone with data 0; STOP without
   * RESET clears RUNNING and zeroes data, keeping the other bits; START
   * alone sets RUNNING and keeps data; a byte with none of the three bits
   * changes nothing.
   */
  lemma CommandedMeans(s: SensorStatus, control: bv8)
    requires StatusOk(s)
    ensures control & SENSOR_CTRL_RESET != 0 ==> Commanded(s, control) == SensorStatus(SENSOR_STATUS_READY, 0)
    ensures control & SENSOR_CTRL_RESET == 0 && control & SENSOR_CTRL_STOP != 0 ==>
      !Running(Commanded(s, control)) && Commanded(s, control).data == 0
      && Commanded(s, control).status & !SENSOR_STATUS_RUNNING == s.status & !SENSOR_STATUS_RUNNING
    ensures control & (SENSOR_CTRL_RESET | SENSOR_CTRL_STOP) == 0 && control & SENSOR_CTRL_START != 0 ==>
      Running(Commanded(s, control)) && Commanded(s, control).data == s.data
      && Commanded(s, control).status & !SENSOR_STATUS_RUNNING == s.status & !SENSOR_STATUS_RUNNING
    ensures control & (SENSOR_CTRL_START | SENSOR_CTRL_STOP | SENSOR_CTRL_RESET) == 0 ==> Commanded(s, control) == s
  {
  }

  // ---- The sensor module in place ----

  /** The sensor module's three channel messages and the status notifications it has sent. */
  class SensorModule {
    var status: SensorStatus
    var config: SensorConfig
    var command: SensorCommand
    /** How many times zbus_chan_notify was called on the status channel. */
    var statusNotifies: nat

    ghost predicate Valid()
      reads this
    {
      StatusOk(status) && ConfigOk(config) && CommandOk(command)
    }

    constructor ()
      ensures Valid()
      ensures status == SENSOR_STATUS_INIT && config == SENSOR_CONFIG_INIT && command == SENSOR_COMMAND_INIT
      ensures statusNotifies == 0
    {
      status, config, command := SENSOR_STATUS_INIT, SENSOR_CONFIG_INIT, SENSOR_COMMAND_INIT;
      statusNotifies := 0;
    }

    /**
     * sensor_sample: nothing happens unless the status can be read, it has
     * RUNNING set, the configuration can be read and the status channel
     * can be claimed; then the status is sampled under the threshold read,
     * and a notification goes out exactly when the status byte changed.
     */
    method Sample(statusRead: bool, configRead: bool, claimed: bool)
      requires Valid()
      modifies this`status, this`statusNotifies
      ensures Valid()
      ensures var go := statusRead && Running(old(status)) && configRead && claimed;
        status == (if go then Sampled(old(status), config.threshold) else old(status))
        && statusNotifies == old(statusNotifies) + (if go && status.status != old(status).status then 1 else 0)
    {
      if !statusRead {
        return;
      }
      var copy := status;
      if copy.status & SENSOR_STATUS_RUNNING == 0 {
        return;
      }
      if !configRead {
        return;
      }
      var threshold := config.threshold;
      if !claimed {
        return;
      }
      UpdateStatus(threshold);
    }

    /** The claimed part of sensor_sample: the status is sampled under `threshold`, and notified if its byte changed. */
    method UpdateStatus(threshold: nat)
      requires StatusOk(status)
      modifies this`status, this`statusNotifies
      ensures status == Sampled(old(status), threshold)
      ensures statusNotifies == old(statusNotifies) + (if status.status != old(status).status then 1 else 0)
    {
      var oldStatus := status.status;
      var st := oldStatus;
      var data := Trunc(status.data + SAMPLE_STEP, 4);
      if data > threshold && threshold > 0 {
        if st & SENSOR_STATUS_ALERT == 0 {
          st := st | SENSOR_STATUS_ALERT;
        }
      } else {
        st := st & !SENSOR_STATUS_ALERT;
      }
      status := SensorStatus(st, data);
      if st != oldStatus {
        statusNotifies := statusNotifies + 1;
      }
    }

    /**
     * sensor_process_command: when the command channel can be claimed the
     * control byte is taken and cleared; a non-zero byte, once the status
     * channel is claimed, is applied to the status by START, STOP and RESET
     * in that order, and a notification goes out exactly when the status
     * byte changed.
     */
    method ProcessCommand(commandClaimed: bool, statusClaimed: bool)
      requires Valid()
      modifies this`status, this`command, this`statusNotifies
      ensures Valid()
      ensures command == (if commandClaimed then old(command).(control := 0) else old(command))
      ensures var go := commandClaimed && old(command).control != 0 && statusClaimed;
        status == (if go then Commanded(old(status), old(command).control) else old(status))
        && statusNotifies == old(statusNotifies) + (if go && status.status != old(status).status then 1 else 0)
    {
      if !commandClaimed {
        return;
      }
      var control := command.control;
      command := command.(control := 0);
      if control == 0 {
        return;
      }
      if !statusClaimed {
        return;
      }
      var oldStatus := status.status;
      if control & SENSOR_CTRL_START != 0 {
        status := status.(status := status.status | SENSOR_STATUS_RUNNING);
      }
      if control & SENSOR_CTRL_STOP != 0 {
        status := status.(status := status.status & !SENSOR_STATUS_RUNNING, data := 0);
      }
      if control & SENSOR_CTRL_RESET != 0 {
        status := SensorStatus(SENSOR_STATUS_READY, 0);
      }
      if status.status != oldStatus {
        statusNotifies := statusNotifies + 1;
      }
    }

    /** sensor_process_config: the configuration is only logged; nothing changes. */
    method ProcessConfig(claimed: bool) returns (threshold: Option<nat>)
      ensures threshold == (if claimed then Some(config.threshold) else None)
    {
      threshold := if claimed then Some(config.threshold) else None;
    }
  }

  // ---- The motor's rule ----

  /**
   * motor_handler_cb's outcome: status RUNNING or IDLE and the current draw
   * from the speed as it was, then the speed held to 5000 when the sensor
   * status could be read and shows ALERT.
   */
  function Handled(m: MotorConfig, sensor: Option<bv8>): (r: MotorConfig)
    requires MotorOk(m)
    ensures MotorOk(r)
  {
    var limited := sensor.Some? && Alert(sensor.value) && m.speed > ALERT_SPEED_LIMIT;
    m.(status := if m.speed > 0 then MOTOR_STATUS_RUNNING else MOTOR_STATUS_IDLE,
       current := if m.speed > 0 then m.speed / 10 else 0,
       speed := if limited then ALERT_SPEED_LIMIT else m.speed)
  }

  /**
   * The motor rule: RUNNING with current speed/10 for a non-zero speed,
   * IDLE with no current for speed 0; the speed is 5000 exactly when an
   * alert was read and it was above 5000, and otherwise unchanged; the
   * direction and acceleration are never touched.
   */
  lemma HandledMeans(m: MotorConfig, sensor: Option<bv8>)
    requires MotorOk(m)
    ensures m.speed > 0 ==> Handled(m, sensor).status == MOTOR_STATUS_RUNNING && Handled(m, sensor).current == m.speed / 10
    ensures m.speed == 0 ==> Handled(m, sensor).status == MOTOR_STATUS_IDLE && Handled(m, sensor).current == 0
    ensures (sensor.Some? && Alert(sensor.value) && m.speed > ALERT_SPEED_LIMIT) ==> Handled(m, sensor).speed == ALERT_SPEED_LIMIT
    ensures !(sensor.Some? && Alert(sensor.value) && m.speed > ALERT_SPEED_LIMIT) ==> Handled(m, sensor).speed == m.speed
    ensures Handled(m, sensor).speed <= m.speed
    ensures sensor.Some? && Alert(sensor.value) ==> Handled(m, sensor).speed <= ALERT_SPEED_LIMIT
    ensures Handled(m, sensor).direction == m.direction && Handled(m, sensor).acceleration == m.acceleration
  {
  }

  /**
   * When the speed is clamped the current still reflects the old speed, so
   * a second pass of the handler (another notification of the motor
   * channel) lowers it to the clamped speed's: the rule is idempotent
   * exactly when no clamp happened.
   */
  lemma HandledTwice(m: MotorConfig, sensor: Option<bv8>)
    requires MotorOk(m)
    ensures var once := Handled(m, sensor);
      Handled(once, sensor) == once <==> !(sensor.Some? && Alert(sensor.value) && m.speed >= 5010)
  {
    var once := Handled(m, sensor);
    if sensor.Some? && Alert(sensor.value) && m.speed >= 5010 {
      assert Handled(once, sensor).current == 500 != once.current;
    }
  }

  /** The motor module's channel message. */
  class MotorModule {
    var cfg: MotorConfig

    constructor ()
      ensures cfg == MOTOR_INIT && MotorOk(cfg)
    {
      cfg := MOTOR_INIT;
    }

    /**
     * motor_handler_cb on a notification of the motor channel: `sensor`
     * is the sensor status byte when zbus_chan_read succeeded without
     * waiting.
     */
    method Handle(sensor: Option<bv8>)
      requires MotorOk(cfg)
      modifies this
      ensures MotorOk(cfg) && cfg == Handled(old(cfg), sensor)
    {
      if cfg.speed > 0 {
        cfg := cfg.(status := MOTOR_STATUS_RUNNING, current := cfg.speed / 10);
      } else {
        cfg := cfg.(status := MOTOR_STATUS_IDLE, current := 0);
      }
      if sensor.Some? {
        if sensor.value & SENSOR_STATUS_ALERT != 0 {
          if cfg.speed > ALERT_SPEED_LIMIT {
            cfg := cfg.(speed := ALERT_SPEED_LIMIT);
          }
        }
      }
    }
  }
}

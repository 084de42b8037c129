// The LED controller of the packet_io router sample
// (packet_io/samples/router_sample/src/modules/led_controller.c and .h): an
// immediate sink that flips the status LED on every toggle command (a
// one-byte packet 0x02) and counts the toggles in a 32-bit atomic counter.
module LedController {
  import opened Bytes

  const LED_TOGGLE_CMD: byte := 0x02

  /** sizeof(struct led_toggle_cmd), packed. */
  const LED_TOGGLE_CMD_SIZE: nat := 1

  /** led_status_on and toggle_count. */
  datatype Led = Led(on: bool, toggles: nat)

  const INITIAL: Led := Led(false, 0)

  predicate Accepted(data: seq<byte>) {
    |data| >= LED_TOGGLE_CMD_SIZE && data[0] == LED_TOGGLE_CMD
  }

  /** led_controller_cmd_handler on a buffer whose first fragment holds `data`. */
  function Toggle(s: Led, data: seq<byte>): (r: Led)
    requires s.toggles < U32_LIMIT
    ensures r.toggles < U32_LIMIT
  {
    if |data| < LED_TOGGLE_CMD_SIZE then s
    else if data[0] != LED_TOGGLE_CMD then s
    else Led(!s.on, Inc(s.toggles, 4))
  }

  /** The handler run on a series of buffers, oldest first. */
  function Run(s: Led, cmds: seq<seq<byte>>): (r: Led)
    requires s.toggles < U32_LIMIT
    ensures r.toggles < U32_LIMIT
    decreases |cmds|
  {
    if |cmds| == 0 then s else Run(Toggle(s, cmds[0]), cmds[1..])
  }

  /** The number of toggle commands in a series. */
  function CountAccepted(cmds: seq<seq<byte>>): (n: nat)
    ensures n <= |cmds|
    decreases |cmds|
  {
    if |cmds| == 0 then 0 else (if Accepted(cmds[0]) then 1 else 0) + CountAccepted(cmds[1..])
  }

  // ---- Properties ----

  /**
   * A buffer changes the state exactly when it is a toggle command; an
   * accepted one flips the LED and counts one toggle.
   */
  lemma ToggleIffAccepted(s: Led, data: seq<byte>)
    requires s.toggles < U32_LIMIT
    ensures Toggle(s, data) != s <==> Accepted(data)
    ensures Accepted(data) ==> Toggle(s, data).on == !s.on && Toggle(s, data).toggles == Inc(s.toggles, 4)
  {
  }

  /** Two accepted toggles give the LED back its state. */
  lemma TwoTogglesRestore(s: Led, d1: seq<byte>, d2: seq<byte>)
    requires s.toggles < U32_LIMIT && Accepted(d1) && Accepted(d2)
    ensures Toggle(Toggle(s, d1), d2).on == s.on
  {
  }

  /**
   * After a series of buffers the LED has flipped once per toggle command
   * in it, and while the counter does not wrap, it has counted each of
   * them.
   */
  lemma {:induction false} RunCounts(s: Led, cmds: seq<seq<byte>>)
    requires s.toggles < U32_LIMIT
    ensures Run(s, cmds).on == (s.on != (CountAccepted(cmds) % 2 == 1))
    ensures s.toggles + CountAccepted(cmds) < U32_LIMIT ==> Run(s, cmds).toggles == s.toggles + CountAccepted(cmds)
    decreases |cmds|
  {
    if |cmds| > 0 {
      RunCounts(Toggle(s, cmds[0]), cmds[1..]);
    }
  }

  // ---- The controller in place ----

  class LedStatus {
    var ledOn: bool
    var toggleCount: nat

    constructor ()
      ensures Led(ledOn, toggleCount) == INITIAL
    {
      ledOn := false;
      toggleCount := 0;
    }

    /** led_controller_cmd_handler on a buffer whose first fragment holds `data`. */
    method Handle(data: seq<byte>)
      requires toggleCount < U32_LIMIT
      modifies this
      ensures toggleCount < U32_LIMIT
      ensures Led(ledOn, toggleCount) == Toggle(old(Led(ledOn, toggleCount)), data)
    {
      if |data| < LED_TOGGLE_CMD_SIZE {
        return;
      }
      if data[0] != LED_TOGGLE_CMD {
        return;
      }
      ledOn := !ledOn;
      toggleCount := Inc(toggleCount, 4);
    }
  }
}

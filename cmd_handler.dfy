// The command handler of the weave packet-routing sample
// (samples/packet_routing/src/cmd_handler.c and .h) and the sampling switch
// it drives (samples/packet_routing/src/sensors.c): an immediate sink that
// reads the first byte of each command, starts sampling on 0x01, stops it on
// 0x02, and counts the commands in uint32_t statistics.
//
// Sampling is on while the semaphore sampling_sem has a count above zero.
// The semaphore has a limit of 1, so giving it twice keeps the count at 1,
// and stopping resets it to 0.
module CmdHandler {
  import opened Bytes

  const CMD_START_SAMPLING: byte := 0x01
  const CMD_STOP_SAMPLING: byte := 0x02

  /** K_SEM_DEFINE(sampling_sem, 0, 1). */
  const SEM_LIMIT: nat := 1

  /** k_sem_give: one more, up to the limit. */
  function Give(count: nat): (r: nat)
    requires count <= SEM_LIMIT
    ensures r == SEM_LIMIT
  {
    if count < SEM_LIMIT then count + 1 else count
  }

  /** sensor_start_sampling and sensor_stop_sampling. */
  function StartSampling(count: nat): (r: nat)
    requires count <= SEM_LIMIT
    ensures r <= SEM_LIMIT
  {
    Give(count)
  }

  function StopSampling(count: nat): (r: nat)
    ensures r == 0
  {
    0
  }

  /** The sampling loop sends packets while this holds. */
  predicate Sampling(count: nat) {
    count > 0
  }

  /** The statistics and the semaphore's count. */
  datatype State = State(processed: nat, starts: nat, stops: nat, unknown: nat, sem: nat)

  /** Sampling starts disabled. */
  const INITIAL: State := State(0, 0, 0, 0, 0)

  predicate Fits(s: State) {
    s.processed < U32_LIMIT && s.starts < U32_LIMIT && s.stops < U32_LIMIT && s.unknown < U32_LIMIT
    && s.sem <= SEM_LIMIT
  }

  /** cmd_handler_fn on a buffer whose first fragment holds `data`. */
  function Command(s: State, data: seq<byte>): (r: State)
    requires Fits(s)
    ensures Fits(r)
  {
    if |data| < 1 then s
    else
      var s1 := s.(processed := Inc(s.processed, 4));
      if data[0] == CMD_START_SAMPLING then s1.(starts := Inc(s.starts, 4), sem := StartSampling(s.sem))
      else if data[0] == CMD_STOP_SAMPLING then s1.(stops := Inc(s.stops, 4), sem := StopSampling(s.sem))
      else s1.(unknown := Inc(s.unknown, 4))
  }

  // ---- Properties ----

  /** An empty buffer is the one thing the handler ignores; any other changes the state. */
  lemma EmptyIgnored(s: State, data: seq<byte>)
    requires Fits(s)
    ensures Command(s, data) == s <==> |data| == 0
  {
    assert Inc(s.processed, 4) != s.processed;
  }

  /**
   * A command is counted once in processed and once in exactly one of
   * start, stop and unknown, the others staying.
   */
  lemma ExactlyOneKind(s: State, data: seq<byte>)
    requires Fits(s) && |data| > 0
    ensures var r := Command(s, data);
      r.processed == Inc(s.processed, 4)
      && (r.starts != s.starts <==> data[0] == CMD_START_SAMPLING)
      && (r.stops != s.stops <==> data[0] == CMD_STOP_SAMPLING)
      && (r.unknown != s.unknown <==> data[0] != CMD_START_SAMPLING && data[0] != CMD_STOP_SAMPLING)
      && (r.starts != s.starts ==> r.starts == Inc(s.starts, 4))
      && (r.stops != s.stops ==> r.stops == Inc(s.stops, 4))
      && (r.unknown != s.unknown ==> r.unknown == Inc(s.unknown, 4))
  {
    assert Inc(s.starts, 4) != s.starts && Inc(s.stops, 4) != s.stops && Inc(s.unknown, 4) != s.unknown;
  }

  /**
   * START leaves sampling on and STOP leaves it off, whatever the state
   * before; any other command leaves the switch alone. The count never
   * passes 1, so one STOP ends any number of STARTs.
   */
  lemma StartStopSwitch(s: State, data: seq<byte>)
    requires Fits(s) && |data| > 0
    ensures var r := Command(s, data);
      (data[0] == CMD_START_SAMPLING ==> Sampling(r.sem) && r.sem == SEM_LIMIT)
      && (data[0] == CMD_STOP_SAMPLING ==> !Sampling(r.sem))
      && (data[0] != CMD_START_SAMPLING && data[0] != CMD_STOP_SAMPLING ==> r.sem == s.sem)
  {
  }

  /** Two STARTs and then a STOP leave sampling off. */
  lemma StopAfterStarts(s: State)
    requires Fits(s)
    ensures !Sampling(Command(Command(Command(s, [CMD_START_SAMPLING]), [CMD_START_SAMPLING]), [CMD_STOP_SAMPLING]).sem)
  {
  }

  /** Only the first byte of a command counts. */
  lemma OnlyFirstByte(s: State, d1: seq<byte>, d2: seq<byte>)
    requires Fits(s) && |d1| > 0 && |d2| > 0 && d1[0] == d2[0]
    ensures Command(s, d1) == Command(s, d2)
  {
  }

  // ---- The handler in place ----

  /** The handler's statistics and the sampling semaphore. */
  class Commands {
    var processed: nat
    var starts: nat
    var stops: nat
    var unknown: nat
    var sem: nat

    constructor ()
      ensures Current() == INITIAL
    {
      processed, starts, stops, unknown, sem := 0, 0, 0, 0, 0;
    }

    function Current(): State
      reads this
    {
      State(processed, starts, stops, unknown, sem)
    }

    /** cmd_handler_fn on a buffer whose first fragment holds `data`. */
    method Handle(data: seq<byte>)
      requires Fits(Current())
      modifies this
      ensures Fits(Current())
      ensures Current() == Command(old(Current()), data)
    {
      if |data| < 1 {
        return;
      }
      var cmd := data[0];
      processed := Inc(processed, 4);
      if cmd == CMD_START_SAMPLING {
        starts := Inc(starts, 4);
        if sem < SEM_LIMIT {
          sem := sem + 1;
        }
      } else if cmd == CMD_STOP_SAMPLING {
        stops := Inc(stops, 4);
        sem := 0;
      } else {
        unknown := Inc(unknown, 4);
      }
    }
  }
}

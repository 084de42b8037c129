// Weave observables in their two implementations.
//
// WeaveObservable (src/observable.c): the value buffer is guarded by a
// semaphore of limit 1, which claim takes and finish or publish gives back.
// Publish tells the owner sink and then the external observers, and a
// `publishing` flag refuses a set or a publish made while that is under
// way, so an observer handler that sets the same observable gets -EBUSY.
//
// WeaveObservableLocked (libs/weave/src/observable.c): set validates, copies
// the value under a spinlock, tells the owner and then the observers; get
// copies the value out under the lock.
//
// Notifications go through the weave core model (WeaveCore): the owner
// sink gets the observable with no payload ops, and the observers are
// reached through the observable's source, whose ops table has neither a
// ref nor an unref callback. The validator is a function of the new value;
// the observable and user data it is also given are fixed for an observable.
module WeaveObservable {
  import opened Wrappers
  import opened Errno
  import WC = WeaveCore

  type Validator = seq<nat> -> int

  /** What never changes about an observable: its size, whether it has a value buffer, its sinks and validator. */
  datatype Config = Config(id: nat, size: nat, hasBuffer: bool, owner: WC.Sink, source: WC.Source,
                           validator: Option<Validator>)

  /** The passthrough ops every observable's source carries. */
  const OBSERVABLE_OPS: WC.Ops := WC.Ops(false, false)

  /** What changes: the value bytes, whether the semaphore is free, and the publishing flag. */
  datatype Obs = Obs(value: seq<nat>, free: bool, publishing: bool)

  /** The result of a call that returns: its return value, the observable and the core afterwards. */
  datatype Outcome = Outcome(ret: int, obs: Obs, core: WC.Core)

  /** The core knows every queue the observable's sinks post to. */
  predicate Wired(cfg: Config, c: WC.Core) {
    WC.Knows(c, cfg.owner) && WC.KnowsAll(c, cfg.source.sinks) && cfg.source.ops == Some(OBSERVABLE_OPS)
  }

  predicate Sized(cfg: Config, s: Obs) {
    |s.value| == cfg.size
  }

  /** The observable as WEAVE_OBSERVABLE_DEFINE leaves it: semaphore free, not publishing. */
  function Initial(cfg: Config, value: seq<nat>): (s: Obs)
    requires |value| == cfg.size
    ensures Sized(cfg, s) && s.free && !s.publishing
  {
    Obs(value, true, false)
  }

  /** weave_observable_claim with K_NO_WAIT: the value buffer if the semaphore is free. */
  function Claim(s: Obs): (r: (bool, Obs))
    ensures r.0 <==> s.free
    ensures !r.1.free && r.1.value == s.value && r.1.publishing == s.publishing
  {
    if s.free then (true, s.(free := false)) else (false, s)
  }

  /** weave_observable_finish: give the semaphore back. */
  function Finish(s: Obs): (r: Obs)
    ensures r.free && r.value == s.value && r.publishing == s.publishing
  {
    s.(free := true)
  }

  /** weave_observable_validate: 0 without a validator, else the validator's answer. */
  function Validate(cfg: Config, value: seq<nat>): (r: int)
    ensures cfg.validator.None? ==> r == 0
  {
    if cfg.validator.None? then 0 else cfg.validator.value(value)
  }

  /** The state a publish is in while the owner and observers run. */
  function Publishing(s: Obs): (r: Obs)
    ensures r.publishing && r.free && r.value == s.value
  {
    s.(publishing := true, free := true)
  }

  /**
   * weave_observable_publish: -EBUSY while a publish is under way.
   * Otherwise the semaphore is given back, the owner sink gets the
   * observable if it has a handler, the observers are notified, `publishing`
   * is cleared again, and the result is what the observers' emit returned.
   */
  function Publish(cfg: Config, s: Obs, c: WC.Core, refRet: WC.Sink -> int): (r: Outcome)
    requires Wired(cfg, c)
    ensures Wired(cfg, r.core) && r.obs.value == s.value
    ensures s.publishing ==> r == Outcome(-EBUSY, s, c)
    ensures !s.publishing ==> r.obs == s.(free := true) && 0 <= r.ret <= |cfg.source.sinks|
  {
    if s.publishing then Outcome(-EBUSY, s, c)
    else
      var during := Publishing(s);
      var c1 := if cfg.owner.hasHandler then WC.SendTo(c, Some(cfg.owner), Some(cfg.id), None, refRet).0 else c;
      var e := WC.EmitTo(c1, Some(cfg.source), Some(cfg.id), refRet);
      assert e.1 >= 0 by { assert cfg.source.ops.Some?; }
      Outcome(e.1, during.(publishing := false), e.0)
  }

  /**
   * weave_observable_set_unchecked on value `input` (None for NULL), or None
   * where the K_FOREVER claim would wait for another claim holder.
   * Checks come in order: NULL arguments, a publish under way, the
   * validator. Only then is the buffer claimed, the value copied and the
   * change published.
   */
  function Set(cfg: Config, s: Obs, input: Option<seq<nat>>, c: WC.Core, refRet: WC.Sink -> int): (r: Option<Outcome>)
    requires Wired(cfg, c) && Sized(cfg, s) && (input.Some? ==> |input.value| >= cfg.size)
    ensures r.Some? ==> Wired(cfg, r.value.core) && Sized(cfg, r.value.obs)
  {
    if input.None? || !cfg.hasBuffer then Some(Outcome(-EINVAL, s, c))
    else if s.publishing then Some(Outcome(-EBUSY, s, c))
    else
      var v := Validate(cfg, input.value);
      if v < 0 then Some(Outcome(v, s, c))
      else if !s.free then None
      else Some(Publish(cfg, s.(value := input.value[..cfg.size], free := false), c, refRet))
  }

  /** weave_observable_get_unchecked: the value, or None where the claim would wait. */
  function Get(cfg: Config, s: Obs, hasOut: bool): (r: Option<(int, seq<nat>)>)
    requires Sized(cfg, s)
    ensures r.Some? && r.value.0 == 0 ==> |r.value.1| == cfg.size
  {
    if !hasOut || !cfg.hasBuffer then Some((-EINVAL, []))
    else if !s.free then None
    else Some((0, s.value))
  }

  // ---- Properties ----

  /** While the semaphore is held, a second claim fails; after finish, it succeeds. */
  lemma ClaimExclusive(s: Obs)
    ensures var c1 := Claim(s);
      !Claim(c1.1).0 && Claim(Finish(c1.1)).0
  {
  }

  /**
   * A value the validator refuses is reported with the validator's error,
   * and neither the value nor anything in the core changes: no handler
   * runs and no observer is told.
   */
  lemma RejectedSetUnchanged(cfg: Config, s: Obs, input: seq<nat>, c: WC.Core, refRet: WC.Sink -> int)
    requires Wired(cfg, c) && Sized(cfg, s) && |input| >= cfg.size && cfg.hasBuffer && !s.publishing
    requires Validate(cfg, input) < 0
    ensures Set(cfg, s, Some(input), c, refRet) == Some(Outcome(Validate(cfg, input), s, c))
  {
  }

  /**
   * The recursion guard: while a publish is under way, a set from an
   * observer is refused with -EBUSY before the validator is asked, and a
   * nested publish is refused too; neither changes anything.
   */
  lemma RecursionGuard(cfg: Config, s: Obs, input: seq<nat>, c: WC.Core, refRet: WC.Sink -> int)
    requires Wired(cfg, c) && Sized(cfg, s) && |input| >= cfg.size && cfg.hasBuffer
    ensures Set(cfg, Publishing(s), Some(input), c, refRet) == Some(Outcome(-EBUSY, Publishing(s), c))
    ensures Publish(cfg, Publishing(s), c, refRet) == Outcome(-EBUSY, Publishing(s), c)
  {
  }

  /**
   * An accepted set on a free observable stores the first `size` bytes of
   * the input, leaves the semaphore free and `publishing` clear, and returns
   * the number of observers the publish reached.
   */
  lemma AcceptedSetStores(cfg: Config, s: Obs, input: seq<nat>, c: WC.Core, refRet: WC.Sink -> int)
    requires Wired(cfg, c) && Sized(cfg, s) && |input| >= cfg.size && cfg.hasBuffer
    requires s.free && !s.publishing && Validate(cfg, input) >= 0
    ensures var r := Set(cfg, s, Some(input), c, refRet);
      r.Some? && r.value.obs == Obs(input[..cfg.size], true, false)
      && 0 <= r.value.ret <= |cfg.source.sinks|
  {
  }

  /** A set followed by a get gives back the value that was set. */
  lemma SetGetRoundTrip(cfg: Config, s: Obs, input: seq<nat>, c: WC.Core, refRet: WC.Sink -> int)
    requires Wired(cfg, c) && Sized(cfg, s) && |input| >= cfg.size && cfg.hasBuffer
    requires s.free && !s.publishing && Validate(cfg, input) >= 0
    ensures var r := Set(cfg, s, Some(input), c, refRet).value;
      Get(cfg, r.obs, true) == Some((0, input[..cfg.size]))
  {
    AcceptedSetStores(cfg, s, input, c, refRet);
  }

  /** Publish does not ask the validator: its outcome is the same whichever validator the observable has. */
  lemma PublishSkipsValidator(cfg: Config, s: Obs, c: WC.Core, refRet: WC.Sink -> int, other: Option<Validator>)
    requires Wired(cfg, c)
    ensures Publish(cfg.(validator := other), s, c, refRet) == Publish(cfg, s, c, refRet)
  {
  }

  /** A get leaves the observable as it was, and a failed validation leaves everything as it was. */
  lemma GetChangesNothing(cfg: Config, s: Obs)
    requires Sized(cfg, s) && cfg.hasBuffer && s.free
    ensures Get(cfg, s, true) == Some((0, s.value))
  {
  }

  // ---- The observable in place ----

  class Observable {
    const cfg: Config
    const bus: WC.Bus
    var value: seq<nat>
    var free: bool
    var publishing: bool

    constructor (cfg: Config, bus: WC.Bus, value: seq<nat>)
      requires |value| == cfg.size
      ensures this.cfg == cfg && this.bus == bus && Current() == Initial(cfg, value)
    {
      this.cfg := cfg;
      this.bus := bus;
      this.value := value;
      free := true;
      publishing := false;
    }

    function Current(): Obs
      reads this
    {
      Obs(value, free, publishing)
    }

    method ClaimValue() returns (ok: bool)
      modifies this
      ensures (ok, Current()) == Claim(old(Current()))
    {
      if !free {
        return false;
      }
      free := false;
      ok := true;
    }

    method FinishValue()
      modifies this
      ensures Current() == Finish(old(Current()))
    {
      free := true;
    }

    method PublishValue(refRet: WC.Sink -> int) returns (ret: int)
      requires Wired(cfg, bus.core)
      modifies this, bus
      ensures Wired(cfg, bus.core)
      ensures Outcome(ret, Current(), bus.core) == Publish(cfg, old(Current()), old(bus.core), refRet)
    {
      if publishing {
        return -EBUSY;
      }
      publishing := true;
      free := true;
      if cfg.owner.hasHandler {
        var _ := bus.SinkSend(Some(cfg.owner), Some(cfg.id), None, refRet);
      }
      ret := bus.SourceEmit(Some(cfg.source), Some(cfg.id), refRet);
      publishing := false;
    }

    /** weave_observable_set_unchecked, on a call that returns. */
    method SetValue(input: Option<seq<nat>>, refRet: WC.Sink -> int) returns (ret: int)
      requires Wired(cfg, bus.core) && Sized(cfg, Current()) && (input.Some? ==> |input.value| >= cfg.size)
      requires Set(cfg, Current(), input, bus.core, refRet).Some?
      modifies this, bus
      ensures Wired(cfg, bus.core) && Sized(cfg, Current())
      ensures Some(Outcome(ret, Current(), bus.core)) == Set(cfg, old(Current()), input, old(bus.core), refRet)
    {
      if input.None? || !cfg.hasBuffer {
        return -EINVAL;
      }
      if publishing {
        return -EBUSY;
      }
      var v := if cfg.validator.None? then 0 else cfg.validator.value(input.value);
      if v < 0 {
        return v;
      }
      var ok := ClaimValue();
      value := input.value[..cfg.size];
      ret := PublishValue(refRet);
    }

    /** weave_observable_get_unchecked, on a call that returns. */
    method GetValue(hasOut: bool) returns (ret: int, out: seq<nat>)
      requires Sized(cfg, Current()) && Get(cfg, Current(), hasOut).Some?
      modifies this
      ensures Current() == old(Current())
      ensures Some((ret, out)) == Get(cfg, Current(), hasOut)
    {
      if !hasOut || !cfg.hasBuffer {
        return -EINVAL, [];
      }
      var ok := ClaimValue();
      out := value;
      FinishValue();
      ret := 0;
    }
  }
}

module WeaveObservableLocked {
  import opened Wrappers
  import opened Errno
  import WC = WeaveCore
  import O = WeaveObservable

  /** weave_observable_set_unchecked, spinlock variant: the return value, the new value and the core. */
  function Set(cfg: O.Config, value: seq<nat>, input: Option<seq<nat>>, c: WC.Core, refRet: WC.Sink -> int)
    : (r: (int, seq<nat>, WC.Core))
    requires O.Wired(cfg, c) && (input.Some? ==> |input.value| >= cfg.size)
    ensures O.Wired(cfg, r.2)
  {
    if input.None? || !cfg.hasBuffer then (-EINVAL, value, c)
    else if cfg.validator.Some? && cfg.validator.value(input.value) < 0 then (cfg.validator.value(input.value), value, c)
    else
      var c1 := if cfg.owner.hasHandler then WC.SendTo(c, Some(cfg.owner), Some(cfg.id), None, refRet).0 else c;
      var e := WC.EmitTo(c1, Some(cfg.source), Some(cfg.id), refRet);
      (e.1, input.value[..cfg.size], e.0)
  }

  /** weave_observable_get_unchecked, spinlock variant. */
  function Get(cfg: O.Config, value: seq<nat>, hasOut: bool): (r: (int, seq<nat>))
  {
    if !hasOut || !cfg.hasBuffer then (-EINVAL, []) else (0, value)
  }

  /** A rejected value is reported with the validator's error before anything is copied or anyone told. */
  lemma RejectedSetUnchanged(cfg: O.Config, value: seq<nat>, input: seq<nat>, c: WC.Core, refRet: WC.Sink -> int)
    requires O.Wired(cfg, c) && |input| >= cfg.size && cfg.hasBuffer && O.Validate(cfg, input) < 0
    ensures Set(cfg, value, Some(input), c, refRet) == (O.Validate(cfg, input), value, c)
  {
  }

  /** A set followed by a get gives back the first `size` bytes of what was set. */
  lemma SetGetRoundTrip(cfg: O.Config, value: seq<nat>, input: seq<nat>, c: WC.Core, refRet: WC.Sink -> int)
    requires O.Wired(cfg, c) && |input| >= cfg.size && cfg.hasBuffer && O.Validate(cfg, input) >= 0
    ensures Get(cfg, Set(cfg, value, Some(input), c, refRet).1, true) == (0, input[..cfg.size])
  {
  }

  /**
   * On an observable that is not claimed and not publishing, the two
   * implementations agree: the same return value, the same stored value,
   * the same notifications, in the same order.
   */
  lemma AgreesWithSemaphoreVariant(cfg: O.Config, s: O.Obs, input: Option<seq<nat>>, c: WC.Core, refRet: WC.Sink -> int)
    requires O.Wired(cfg, c) && O.Sized(cfg, s) && (input.Some? ==> |input.value| >= cfg.size)
    requires s.free && !s.publishing
    ensures var r := O.Set(cfg, s, input, c, refRet);
      var l := Set(cfg, s.value, input, c, refRet);
      r.Some? && r.value.ret == l.0 && r.value.obs.value == l.1 && r.value.core == l.2
  {
  }

  class LockedObservable {
    const cfg: O.Config
    const bus: WC.Bus
    var value: seq<nat>

    constructor (cfg: O.Config, bus: WC.Bus, value: seq<nat>)
      ensures this.cfg == cfg && this.bus == bus && this.value == value
    {
      this.cfg := cfg;
      this.bus := bus;
      this.value := value;
    }

    method SetValue(input: Option<seq<nat>>, refRet: WC.Sink -> int) returns (ret: int)
      requires O.Wired(cfg, bus.core) && (input.Some? ==> |input.value| >= cfg.size)
      modifies this, bus
      ensures O.Wired(cfg, bus.core)
      ensures (ret, value, bus.core) == Set(cfg, old(value), input, old(bus.core), refRet)
    {
      if input.None? || !cfg.hasBuffer {
        return -EINVAL;
      }
      if cfg.validator.Some? {
        var v := cfg.validator.value(input.value);
        if v < 0 {
          return v;
        }
      }
      value := input.value[..cfg.size];
      if cfg.owner.hasHandler {
        var _ := bus.SinkSend(Some(cfg.owner), Some(cfg.id), None, refRet);
      }
      ret := bus.SourceEmit(Some(cfg.source), Some(cfg.id), refRet);
    }

    method GetValue(hasOut: bool) returns (ret: int, out: seq<nat>)
      ensures (ret, out) == Get(cfg, value, hasOut)
    {
      if !hasOut || !cfg.hasBuffer {
        return -EINVAL, [];
      }
      return 0, value;
    }
  }
}

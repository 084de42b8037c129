// The weave core: sources fan a payload pointer out to sinks, taking a
// reference through the source's payload ops before each delivery. A sink
// without a queue handles the payload at once and the reference is released
// right after; a sink with a queue gets an event {sink, ptr, ops} that a later
// weave_process_messages handles and releases. Timeouts are K_NO_WAIT, so a
// put into a full queue fails at once.
//
// The payload ops are abstract: `refRet(s)` is what the ref callback answers
// for sink `s` (negative to refuse), and the model counts the references the
// callbacks take and release.
module WeaveCore {
  import opened Wrappers
  import opened Errno

  /** A payload ops table; each callback may be NULL. */
  datatype Ops = Ops(hasRef: bool, hasUnref: bool)

  /** A sink: its handler may be NULL; `queue` indexes the message queue it posts to, if any. */
  datatype Sink = Sink(name: nat, hasHandler: bool, queue: Option<nat>)

  datatype Event = Event(sink: Option<Sink>, ptr: nat, ops: Option<Ops>)

  /** A k_msgq of events with a fixed capacity. */
  datatype Queue = Queue(items: seq<Event>, capacity: nat)

  /** A source: its connected sinks in list order and its payload ops (NULL allowed). */
  datatype Source = Source(sinks: seq<Sink>, ops: Option<Ops>)

  /**
   * Everything the core changes: the queues, the number of references the
   * ref callbacks took and the unref callbacks released, and every handler
   * call as (sink name, payload), in order.
   */
  datatype Core = Core(queues: seq<Queue>, refs: nat, unrefs: nat, handled: seq<(nat, nat)>)

  predicate Knows(c: Core, s: Sink) {
    s.queue.Some? ==> s.queue.value < |c.queues|
  }

  predicate KnowsAll(c: Core, sinks: seq<Sink>) {
    forall i :: 0 <= i < |sinks| ==> Knows(c, sinks[i])
  }

  function Release(c: Core, ops: Option<Ops>): (r: Core)
    ensures r.queues == c.queues && r.refs == c.refs && r.handled == c.handled
    ensures r.unrefs == c.unrefs + (if ops.Some? && ops.value.hasUnref then 1 else 0)
  {
    if ops.Some? && ops.value.hasUnref then c.(unrefs := c.unrefs + 1) else c
  }

  /**
   * sink_deliver. -EINVAL (nothing done) for a NULL sink, handler or
   * pointer; a refusing ref callback's answer is passed back with nothing
   * done; an immediate sink is handled and released; a queued sink gets the
   * event, or, when its queue is full, the reference is released again and
   * the answer is -ENOBUFS.
   */
  function DeliverTo(c: Core, sink: Option<Sink>, ptr: Option<nat>, ops: Option<Ops>, refRet: Sink -> int): (r: (Core, int))
    requires sink.Some? ==> Knows(c, sink.value)
    ensures |r.0.queues| == |c.queues|
    ensures sink.None? || !sink.value.hasHandler || ptr.None? ==> r == (c, -EINVAL)
    ensures (sink.Some? && sink.value.hasHandler && ptr.Some? && ops.Some? && ops.value.hasRef
             && refRet(sink.value) < 0) ==> r == (c, refRet(sink.value))
    ensures r.1 == 0 || r.1 == -EINVAL || r.1 == -ENOBUFS || (r.1 < 0 && r.0 == c)
    ensures r.0.handled == c.handled
      + (if r.1 == 0 && sink.Some? && ptr.Some? && sink.value.queue.None? then [(sink.value.name, ptr.value)] else [])
  {
    if sink.None? || !sink.value.hasHandler || ptr.None? then (c, -EINVAL)
    else
      var s := sink.value;
      var took := ops.Some? && ops.value.hasRef;
      if took && refRet(s) < 0 then (c, refRet(s))
      else
        var c1 := if took then c.(refs := c.refs + 1) else c;
        if s.queue.None? then
          (Release(c1.(handled := c1.handled + [(s.name, ptr.value)]), ops), 0)
        else
          var qi := s.queue.value;
          var q := c1.queues[qi];
          if |q.items| < q.capacity then
            (c1.(queues := c1.queues[qi := q.(items := q.items + [Event(sink, ptr.value, ops)])]), 0)
          else
            (Release(c1, ops), -ENOBUFS)
  }

  /** The delivery loop of weave_source_emit from one sink on, with `delivered` successes so far. */
  function EmitFrom(c: Core, sinks: seq<Sink>, ptr: nat, ops: Option<Ops>, refRet: Sink -> int, delivered: nat): (r: (Core, int))
    requires KnowsAll(c, sinks)
    ensures |r.0.queues| == |c.queues|
    ensures r.1 >= 0 ==> delivered <= r.1 <= delivered + |sinks|
    ensures r.1 < 0 ==> r.1 == -EINVAL && ops.None?
    ensures ops.None? && r.1 >= 0 ==> r.1 <= if delivered > 0 then delivered else 1
    decreases |sinks|
  {
    if |sinks| == 0 then (c, delivered)
    else if ops.None? && delivered > 0 then (c, -EINVAL)
    else
      var (c1, ret) := DeliverTo(c, Some(sinks[0]), Some(ptr), ops, refRet);
      assert KnowsAll(c1, sinks[1..]) by {
        forall i | 0 <= i < |sinks[1..]| ensures Knows(c1, sinks[1..][i]) {
          assert sinks[1..][i] == sinks[i + 1];
        }
      }
      EmitFrom(c1, sinks[1..], ptr, ops, refRet, delivered + (if ret == 0 then 1 else 0))
  }

  /**
   * weave_source_emit: -EINVAL for a NULL source or pointer; otherwise the
   * number of sinks the payload reached.
   */
  function EmitTo(c: Core, source: Option<Source>, ptr: Option<nat>, refRet: Sink -> int): (r: (Core, int))
    requires source.Some? ==> KnowsAll(c, source.value.sinks)
    ensures |r.0.queues| == |c.queues|
    ensures source.None? || ptr.None? ==> r == (c, -EINVAL)
    ensures r.1 >= 0 ==> r.1 <= |source.value.sinks|
    ensures r.1 < 0 ==> r.1 == -EINVAL
  {
    if source.None? || ptr.None? then (c, -EINVAL)
    else EmitFrom(c, source.value.sinks, ptr.value, source.value.ops, refRet, 0)
  }

  /** weave_sink_send: -EINVAL for a NULL sink, otherwise one delivery. */
  function SendTo(c: Core, sink: Option<Sink>, ptr: Option<nat>, ops: Option<Ops>, refRet: Sink -> int): (r: (Core, int))
    requires sink.Some? ==> Knows(c, sink.value)
    ensures sink.None? ==> r == (c, -EINVAL)
    ensures sink.Some? ==> r == DeliverTo(c, sink, ptr, ops, refRet)
  {
    if sink.None? then (c, -EINVAL) else DeliverTo(c, sink, ptr, ops, refRet)
  }

  /** Handle one dequeued event, if it names a sink with a handler, and release it through its own ops. */
  function HandleEvent(c: Core, e: Event): (r: (Core, nat))
    ensures r.0.queues == c.queues && r.0.refs == c.refs
  {
    if e.sink.Some? && e.sink.value.hasHandler then
      (Release(c.(handled := c.handled + [(e.sink.value.name, e.ptr)]), e.ops), 1)
    else (c, 0)
  }

  function DrainItems(c: Core, items: seq<Event>, processed: nat): (r: (Core, nat))
    ensures r.0.queues == c.queues && r.0.refs == c.refs
    ensures processed <= r.1 <= processed + |items|
    decreases |items|
  {
    if |items| == 0 then (c, processed)
    else
      var (c1, n) := HandleEvent(c, items[0]);
      DrainItems(c1, items[1..], processed + n)
  }

  function Emptied(c: Core, qi: nat): Core
    requires qi < |c.queues|
  {
    c.(queues := c.queues[qi := c.queues[qi].(items := [])])
  }

  /**
   * weave_process_messages: -EINVAL for a NULL queue; otherwise the queue is
   * drained in FIFO order and the number of events that had a sink with a
   * handler is returned.
   */
  function Drain(c: Core, queue: Option<nat>): (r: (Core, int))
    requires queue.Some? ==> queue.value < |c.queues|
    ensures queue.None? ==> r == (c, -EINVAL)
    ensures queue.Some? ==> (0 <= r.1 <= |c.queues[queue.value].items|
      && r.0.queues == Emptied(c, queue.value).queues && r.0.refs == c.refs)
  {
    if queue.None? then (c, -EINVAL)
    else
      var (c1, n) := DrainItems(Emptied(c, queue.value), c.queues[queue.value].items, 0);
      (c1, n)
  }

  // ---- Reference balance ----

  /** References that queued events still hold: those whose ops will release them. */
  function HeldIn(items: seq<Event>): nat {
    if |items| == 0 then 0
    else (if items[0].ops.Some? && items[0].ops.value.hasUnref then 1 else 0) + HeldIn(items[1..])
  }

  function Held(qs: seq<Queue>): nat {
    if |qs| == 0 then 0 else HeldIn(qs[0].items) + Held(qs[1..])
  }

  /** Ops whose ref and unref callbacks come together. */
  predicate Paired(ops: Option<Ops>) {
    ops.Some? ==> ops.value.hasRef == ops.value.hasUnref
  }

  /** Every queued event names a sink with a handler and paired ops. */
  ghost predicate WellFormed(c: Core) {
    forall qi, k :: 0 <= qi < |c.queues| && 0 <= k < |c.queues[qi].items| ==>
      c.queues[qi].items[k].sink.Some? && c.queues[qi].items[k].sink.value.hasHandler
      && Paired(c.queues[qi].items[k].ops)
  }

  /** Every reference taken has been released, or is held by a queued event. */
  predicate Balanced(c: Core) {
    c.refs == c.unrefs + Held(c.queues)
  }

  lemma {:induction false} HeldInAppend(a: seq<Event>, b: seq<Event>)
    ensures HeldIn(a + b) == HeldIn(a) + HeldIn(b)
  {
    if |a| == 0 {
      assert a + b == b;
    } else {
      assert (a + b)[1..] == a[1..] + b;
      HeldInAppend(a[1..], b);
    }
  }

  lemma {:induction false} HeldUpdate(qs: seq<Queue>, i: nat, q: Queue)
    requires i < |qs|
    ensures Held(qs[i := q]) + HeldIn(qs[i].items) == Held(qs) + HeldIn(q.items)
  {
    if i > 0 {
      assert qs[i := q][1..] == qs[1..][i - 1 := q];
      HeldUpdate(qs[1..], i - 1, q);
    }
  }

  /** A delivery with paired ops keeps the balance and the well-formedness of the queues. */
  lemma DeliverBalanced(c: Core, sink: Option<Sink>, ptr: Option<nat>, ops: Option<Ops>, refRet: Sink -> int)
    requires sink.Some? ==> Knows(c, sink.value)
    requires Balanced(c) && WellFormed(c) && Paired(ops)
    ensures Balanced(DeliverTo(c, sink, ptr, ops, refRet).0)
    ensures WellFormed(DeliverTo(c, sink, ptr, ops, refRet).0)
  {
    if sink.Some? && sink.value.hasHandler && ptr.Some? && sink.value.queue.Some? {
      var s := sink.value;
      var took := ops.Some? && ops.value.hasRef;
      if !(took && refRet(s) < 0) {
        var c1 := if took then c.(refs := c.refs + 1) else c;
        var qi := s.queue.value;
        var q := c1.queues[qi];
        if |q.items| < q.capacity {
          var e := Event(sink, ptr.value, ops);
          var q' := q.(items := q.items + [e]);
          HeldUpdate(c1.queues, qi, q');
          HeldInAppend(q.items, [e]);
          var r := DeliverTo(c, sink, ptr, ops, refRet).0;
          assert r.queues == c1.queues[qi := q'];
          forall i, k | 0 <= i < |r.queues| && 0 <= k < |r.queues[i].items|
            ensures r.queues[i].items[k].sink.Some? && r.queues[i].items[k].sink.value.hasHandler
              && Paired(r.queues[i].items[k].ops)
          {
            if i == qi && k == |q.items| {
              assert r.queues[i].items[k] == e;
            } else if i == qi {
              assert r.queues[i].items[k] == c.queues[i].items[k];
            }
          }
        }
      }
    }
  }

  lemma {:induction false} EmitFromBalanced(c: Core, sinks: seq<Sink>, ptr: nat, ops: Option<Ops>, refRet: Sink -> int, delivered: nat)
    requires KnowsAll(c, sinks) && Balanced(c) && WellFormed(c) && Paired(ops)
    ensures Balanced(EmitFrom(c, sinks, ptr, ops, refRet, delivered).0)
    ensures WellFormed(EmitFrom(c, sinks, ptr, ops, refRet, delivered).0)
    decreases |sinks|
  {
    if |sinks| > 0 && !(ops.None? && delivered > 0) {
      var (c1, ret) := DeliverTo(c, Some(sinks[0]), Some(ptr), ops, refRet);
      DeliverBalanced(c, Some(sinks[0]), Some(ptr), ops, refRet);
      assert KnowsAll(c1, sinks[1..]) by {
        forall i | 0 <= i < |sinks[1..]| ensures Knows(c1, sinks[1..][i]) {
          assert sinks[1..][i] == sinks[i + 1];
        }
      }
      EmitFromBalanced(c1, sinks[1..], ptr, ops, refRet, delivered + (if ret == 0 then 1 else 0));
    }
  }

  /** Emitting from a source with paired ops keeps every reference accounted for. */
  lemma EmitBalanced(c: Core, source: Option<Source>, ptr: Option<nat>, refRet: Sink -> int)
    requires source.Some? ==> KnowsAll(c, source.value.sinks) && Paired(source.value.ops)
    requires Balanced(c) && WellFormed(c)
    ensures Balanced(EmitTo(c, source, ptr, refRet).0) && WellFormed(EmitTo(c, source, ptr, refRet).0)
  {
    if source.Some? && ptr.Some? {
      EmitFromBalanced(c, source.value.sinks, ptr.value, source.value.ops, refRet, 0);
    }
  }

  lemma {:induction false} DrainItemsCounts(c: Core, items: seq<Event>, processed: nat)
    requires forall k :: 0 <= k < |items| ==>
      items[k].sink.Some? && items[k].sink.value.hasHandler && Paired(items[k].ops)
    ensures var r := DrainItems(c, items, processed);
      r.1 == processed + |items| && r.0.unrefs == c.unrefs + HeldIn(items)
      && r.0.handled == c.handled + HandledBy(items)
    decreases |items|
  {
    if |items| > 0 {
      var (c1, n) := HandleEvent(c, items[0]);
      DrainItemsCounts(c1, items[1..], processed + n);
      assert c.handled + [(items[0].sink.value.name, items[0].ptr)] + HandledBy(items[1..])
        == c.handled + HandledBy(items);
    }
  }

  /** The handler calls draining well-formed events makes, in queue order. */
  function HandledBy(items: seq<Event>): (r: seq<(nat, nat)>)
    requires forall k :: 0 <= k < |items| ==> items[k].sink.Some?
    ensures |r| == |items|
  {
    if |items| == 0 then []
    else [(items[0].sink.value.name, items[0].ptr)] + HandledBy(items[1..])
  }

  /**
   * Draining a queue of a well-formed core calls the handler of every event
   * in FIFO order, counts them all, releases each held reference once and
   * keeps the balance; once no queue holds events, every reference taken has
   * been released.
   */
  lemma DrainBalanced(c: Core, qi: nat)
    requires qi < |c.queues| && Balanced(c) && WellFormed(c)
    ensures var (c', n) := Drain(c, Some(qi));
      n == |c.queues[qi].items| && Balanced(c') && WellFormed(c')
      && c'.handled == c.handled + HandledBy(c.queues[qi].items)
  {
    var items := c.queues[qi].items;
    DrainItemsCounts(Emptied(c, qi), items, 0);
    HeldUpdate(c.queues, qi, c.queues[qi].(items := []));
    var c' := Drain(c, Some(qi)).0;
    forall i, k | 0 <= i < |c'.queues| && 0 <= k < |c'.queues[i].items|
      ensures c'.queues[i].items[k].sink.Some? && c'.queues[i].items[k].sink.value.hasHandler
        && Paired(c'.queues[i].items[k].ops)
    {
      assert i != qi;
      assert c'.queues[i] == c.queues[i];
    }
  }

  lemma {:induction false} HeldEmpty(qs: seq<Queue>)
    requires forall i :: 0 <= i < |qs| ==> qs[i].items == []
    ensures Held(qs) == 0
  {
    if |qs| > 0 {
      HeldEmpty(qs[1..]);
    }
  }

  /** With every queue empty, a balanced core has released every reference it took. */
  lemma AllDrained(c: Core)
    requires Balanced(c) && forall i :: 0 <= i < |c.queues| ==> c.queues[i].items == []
    ensures c.refs == c.unrefs
  {
    HeldEmpty(c.queues);
  }

  /** A source with ops delivers to the sinks of an immediate-only list, count for count. */
  lemma {:induction false} EmitImmediate(c: Core, sinks: seq<Sink>, ptr: nat, ops: Ops, delivered: nat)
    requires forall i :: 0 <= i < |sinks| ==> sinks[i].hasHandler && sinks[i].queue.None?
    ensures KnowsAll(c, sinks)
    ensures var refRet := (s: Sink) => 0;
      var (c', n) := EmitFrom(c, sinks, ptr, Some(ops), refRet, delivered);
      n == delivered + |sinks| && c'.handled == c.handled + Calls(sinks, ptr)
      && c'.queues == c.queues
      && c'.refs == c.refs + (if ops.hasRef then |sinks| else 0)
      && c'.unrefs == c.unrefs + (if ops.hasUnref then |sinks| else 0)
    decreases |sinks|
  {
    var refRet := (s: Sink) => 0;
    if |sinks| > 0 {
      var (c1, ret) := DeliverTo(c, Some(sinks[0]), Some(ptr), Some(ops), refRet);
      EmitImmediate(c1, sinks[1..], ptr, ops, delivered + 1);
      assert c.handled + [(sinks[0].name, ptr)] + Calls(sinks[1..], ptr) == c.handled + Calls(sinks, ptr);
    }
  }

  function Calls(sinks: seq<Sink>, ptr: nat): (r: seq<(nat, nat)>)
    ensures |r| == |sinks|
  {
    if |sinks| == 0 then [] else [(sinks[0].name, ptr)] + Calls(sinks[1..], ptr)
  }

  /** Without ops, a source whose first sink accepts refuses to go on to a second one. */
  lemma NoOpsSingleSink(c: Core, s0: Sink, s1: Sink, rest: seq<Sink>, ptr: nat, refRet: Sink -> int)
    requires s0.hasHandler && s0.queue.None? && Knows(c, s1) && KnowsAll(c, rest)
    ensures KnowsAll(c, [s0, s1] + rest)
    ensures EmitTo(c, Some(Source([s0, s1] + rest, None)), Some(ptr), refRet).1 == -EINVAL
  {
    var sinks := [s0, s1] + rest;
    assert KnowsAll(c, sinks) by {
      forall i | 0 <= i < |sinks| ensures Knows(c, sinks[i]) {
        if i >= 2 { assert sinks[i] == rest[i - 2]; }
      }
    }
    var (c1, ret) := DeliverTo(c, Some(s0), Some(ptr), None, refRet);
    assert ret == 0;
    assert sinks[0] == s0 && sinks[1..] == [s1] + rest;
    assert KnowsAll(c1, sinks[1..]) by {
      forall i | 0 <= i < |sinks[1..]| ensures Knows(c1, sinks[1..][i]) {
        assert sinks[1..][i] == sinks[i + 1];
      }
    }
    assert EmitFrom(c1, sinks[1..], ptr, None, refRet, 1).1 == -EINVAL;
    assert EmitTo(c, Some(Source(sinks, None)), Some(ptr), refRet)
      == EmitFrom(c1, sinks[1..], ptr, None, refRet, 1);
  }

  // ---- The core as the firmware runs it ----

  class Bus {
    var core: Core

    constructor (queues: seq<Queue>)
      ensures core == Core(queues, 0, 0, [])
    {
      core := Core(queues, 0, 0, []);
    }

    method SinkDeliver(sink: Option<Sink>, ptr: Option<nat>, ops: Option<Ops>, refRet: Sink -> int) returns (ret: int)
      requires sink.Some? ==> Knows(core, sink.value)
      modifies this
      ensures (core, ret) == DeliverTo(old(core), sink, ptr, ops, refRet)
    {
      if sink.None? || !sink.value.hasHandler || ptr.None? {
        return -EINVAL;
      }
      var s := sink.value;
      if ops.Some? && ops.value.hasRef {
        var r := refRet(s);
        if r < 0 {
          return r;
        }
        core := core.(refs := core.refs + 1);
      }
      if s.queue.None? {
        core := core.(handled := core.handled + [(s.name, ptr.value)]);
        if ops.Some? && ops.value.hasUnref {
          core := core.(unrefs := core.unrefs + 1);
        }
        return 0;
      }
      var qi := s.queue.value;
      var q := core.queues[qi];
      if |q.items| < q.capacity {
        core := core.(queues := core.queues[qi := q.(items := q.items + [Event(sink, ptr.value, ops)])]);
        return 0;
      }
      if ops.Some? && ops.value.hasUnref {
        core := core.(unrefs := core.unrefs + 1);
      }
      return -ENOBUFS;
    }

    method SourceEmit(source: Option<Source>, ptr: Option<nat>, refRet: Sink -> int) returns (ret: int)
      requires source.Some? ==> KnowsAll(core, source.value.sinks)
      modifies this
      ensures (core, ret) == EmitTo(old(core), source, ptr, refRet)
    {
      if source.None? || ptr.None? {
        return -EINVAL;
      }
      var sinks := source.value.sinks;
      var ops := source.value.ops;
      var delivered := 0;
      var i := 0;
      while i < |sinks|
        invariant 0 <= i <= |sinks| && |core.queues| == |old(core).queues|
        invariant KnowsAll(core, sinks[i..])
        invariant EmitTo(old(core), source, ptr, refRet) == EmitFrom(core, sinks[i..], ptr.value, ops, refRet, delivered)
      {
        if ops.None? && delivered > 0 {
          return -EINVAL;
        }
        assert sinks[i..][1..] == sinks[i + 1..];
        var r := SinkDeliver(Some(sinks[i]), ptr, ops, refRet);
        if r == 0 {
          delivered := delivered + 1;
        }
        i := i + 1;
      }
      return delivered;
    }

    method SinkSend(sink: Option<Sink>, ptr: Option<nat>, ops: Option<Ops>, refRet: Sink -> int) returns (ret: int)
      requires sink.Some? ==> Knows(core, sink.value)
      modifies this
      ensures (core, ret) == SendTo(old(core), sink, ptr, ops, refRet)
    {
      if sink.None? {
        return -EINVAL;
      }
      ret := SinkDeliver(sink, ptr, ops, refRet);
    }

    method ProcessMessages(queue: Option<nat>) returns (ret: int)
      requires queue.Some? ==> queue.value < |core.queues|
      modifies this
      ensures (core, ret) == Drain(old(core), queue)
    {
      if queue.None? {
        return -EINVAL;
      }
      var qi := queue.value;
      var processed := 0;
      while |core.queues[qi].items| > 0
        invariant qi < |core.queues| && |core.queues| == |old(core).queues|
        invariant Drain(old(core), queue)
          == (var r := DrainItems(Emptied(core, qi), core.queues[qi].items, processed); (r.0, r.1 as int))
        decreases |core.queues[qi].items|
      {
        ghost var before := core;
        var items := core.queues[qi].items;
        var e := items[0];
        core := core.(queues := core.queues[qi := core.queues[qi].(items := items[1..])]);
        assert Emptied(core, qi) == Emptied(before, qi);
        ghost var popped := core;
        if e.sink.Some? && e.sink.value.hasHandler {
          core := core.(handled := core.handled + [(e.sink.value.name, e.ptr)]);
          if e.ops.Some? && e.ops.value.hasUnref {
            core := core.(unrefs := core.unrefs + 1);
          }
          processed := processed + 1;
        }
        assert Emptied(core, qi) == HandleEvent(Emptied(popped, qi), e).0;
      }
      assert core.queues[qi].(items := []) == core.queues[qi];
      assert Emptied(core, qi) == core;
      return processed;
    }
  }
}

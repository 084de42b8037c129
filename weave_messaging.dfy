// The weave messaging subsystem (weave/subsys/weave/weave_core.c): modules
// call each other's methods through ports and emit signals to handlers. A
// call to a module without a request queue runs its handler at once. One to
// a module with a queue puts a message context, taken from a fixed slab,
// into the queue and waits for its completion; that module's thread runs
// the messages later and releases them.
//
// A message context lives while its reference count is positive: the queue
// entry holds one reference, and the sender of a request holds a second
// until it has waited. The model keeps the live contexts in a map from
// identifiers to records; the identifier in a queue stands for the pointer
// to the context's embedded message.
//
// Timeouts are K_NO_WAIT. A sender waiting for a reply can see it only if
// the receiver's thread handled the message in the meantime, so a call is
// given `served`: how many messages the receiver runs, oldest first, before
// the sender's wait. Data-heap exhaustion is an input. A handler is a
// function of the module running it and of its request; what it writes
// into its reply buffer is not modelled, and the bytes copied back to the
// caller are reported as a count.
module WeaveMessaging {
  import opened Wrappers
  import opened Errno
  import opened Bytes

  /** enum weave_msg_type. */
  datatype Kind = MsgRequest | MsgSignal

  /** A method handler: the module it runs for, the request data (None for NULL) and whether a reply buffer is given. */
  type MethodFn = (nat, Option<seq<byte>>, bool) -> int

  /** struct weave_module: its identifier and whether it has a request queue. */
  datatype Module = Module(id: nat, hasQueue: bool)

  /** struct weave_method: its parent module, handler and sizes. */
  datatype Method = Method(owner: Option<Module>, handler: Option<MethodFn>, requestSize: nat, replySize: nat)

  /** struct weave_method_port: the sizes callers promise and the method it has been wired to. */
  datatype Port = Port(requestSize: nat, replySize: nat, target: Option<Method>)

  /** struct weave_signal_handler: its module and whether it has a handler function. */
  datatype Handler = Handler(owner: Option<Module>, hasHandler: bool)

  /** struct weave_signal: the event size and the handlers wired to it, in wiring order. */
  datatype Signal = Signal(eventSize: nat, handlers: seq<Handler>)

  /** What a message's method field points to. */
  datatype Target = ToMethod(callee: Method) | ToHandler(handler: Handler)

  /**
   * struct weave_message_context: the message's kind, target and buffers,
   * the reference count, the result and the completion semaphore's count.
   * `home` is the module whose queue the message was put in.
   */
  datatype Ctx = Ctx(kind: Kind, refcount: int, result: int, completion: nat, target: Option<Target>,
                     request: Option<seq<byte>>, requestSize: nat, reply: bool, replySize: nat, home: nat)

  /** A module's k_msgq of message pointers. */
  datatype Queue = Queue(items: seq<nat>, capacity: nat)

  /** One run of a handler: by the module it ran for, with the data it was given. */
  datatype Run = MethodRun(owner: nat, request: Option<seq<byte>>, reply: bool)
               | SignalRun(owner: nat, event: Option<seq<byte>>)

  /**
   * The slab's size, the live contexts, the next identifier, the modules'
   * request queues, and the handler runs so far.
   */
  datatype State = State(slab: nat, ctxs: map<nat, Ctx>, next: nat, queues: map<nat, Queue>, runs: seq<Run>)

  function Min(a: nat, b: nat): nat {
    if a <= b then a else b
  }

  /** Every live identifier was handed out before. */
  predicate Fresh(st: State) {
    forall id | id in st.ctxs :: id < st.next
  }

  /** A module with a queue has one in the state. */
  predicate Knows(st: State, m: Module) {
    m.hasQueue ==> m.id in st.queues
  }

  /** The context `id` sits in its home queue. */
  predicate Queued(st: State, id: nat)
    requires id in st.ctxs
  {
    st.ctxs[id].home in st.queues && id in st.queues[st.ctxs[id].home].items
  }

  /** No identifier occurs twice in a queue. */
  predicate Distinct(items: seq<nat>) {
    forall i, j | 0 <= i < j < |items| :: items[i] != items[j]
  }

  /** Every entry of queue `q` is a live context whose home is `q`. */
  predicate Homed(st: State, q: nat)
    requires q in st.queues
  {
    forall x | x in st.queues[q].items :: x in st.ctxs && st.ctxs[x].home == q
  }

  /** Each live context's count is its queue entry plus the waiting sender's reference, and is positive. */
  predicate Counted(st: State, held: Option<nat>) {
    forall id | id in st.ctxs ::
      st.ctxs[id].refcount == (if Queued(st, id) then 1 else 0) + (if held == Some(id) then 1 else 0)
      && st.ctxs[id].refcount >= 1
  }

  /**
   * The reference-count invariant, with `held` the context a waiting
   * sender holds, if any. Every queue entry is a live context of that
   * queue, no context is queued twice, and each live context's count is
   * its queue entry plus the sender's reference, so no context lives
   * without a holder.
   */
  predicate Inv(st: State, held: Option<nat>) {
    Fresh(st)
    && (forall q | q in st.queues :: Homed(st, q) && Distinct(st.queues[q].items))
    && Counted(st, held)
    && (held.Some? ==> held.value in st.ctxs)
  }

  // ---- Contexts ----

  /** weave_free_context. */
  function Free(st: State, id: nat): (r: State)
    ensures id !in r.ctxs && r.queues == st.queues && r.next == st.next && r.runs == st.runs
  {
    st.(ctxs := st.ctxs - {id})
  }

  /** weave_context_put on `id` (None for NULL): one reference less, and the context freed with the last. */
  function Put(st: State, id: Option<nat>): (r: (State, bool))
    requires id.Some? ==> id.value in st.ctxs
    ensures r.0.queues == st.queues && r.0.next == st.next && r.0.runs == st.runs && r.0.slab == st.slab
    ensures r.0.ctxs.Keys <= st.ctxs.Keys
  {
    if id.None? then (st, false)
    else if st.ctxs[id.value].refcount == 1 then (Free(st, id.value), true)
    else
      var c := st.ctxs[id.value];
      (st.(ctxs := st.ctxs[id.value := c.(refcount := c.refcount - 1)]), false)
  }

  /**
   * weave_create_message_context: a zeroed context from the slab, None when
   * it is exhausted. A request's result starts as -ETIMEDOUT.
   */
  function Create(st: State, kind: Kind, refcount: int, home: nat): (r: (State, Option<nat>))
    requires Fresh(st)
    ensures Fresh(r.0) && r.0.queues == st.queues && r.0.runs == st.runs && r.0.slab == st.slab
    ensures r.1.None? <==> |st.ctxs| >= st.slab
    ensures r.1.None? ==> r.0 == st
    ensures r.1.Some? ==>
              (r.1.value == st.next && r.1.value !in st.ctxs && r.0.next == st.next + 1
               && r.0.ctxs == st.ctxs[st.next := Ctx(kind, refcount, if kind == MsgRequest then -ETIMEDOUT else 0,
                                                      0, None, None, 0, false, 0, home)])
  {
    if |st.ctxs| >= st.slab then (st, None)
    else
      var c := Ctx(kind, refcount, if kind == MsgRequest then -ETIMEDOUT else 0, 0, None, None, 0, false, 0, home);
      (st.(ctxs := st.ctxs[st.next := c], next := st.next + 1), Some(st.next))
  }

  /** `n` calls of weave_context_put on `id`. */
  function ReleaseAll(st: State, id: nat, n: nat): (r: State)
    requires n > 0 ==> id in st.ctxs && n <= st.ctxs[id].refcount
    ensures r.queues == st.queues && r.next == st.next && r.runs == st.runs && r.slab == st.slab
    ensures r.ctxs.Keys <= st.ctxs.Keys
    decreases n
  {
    if n == 0 then st else ReleaseAll(Put(st, Some(id)).0, id, n - 1)
  }

  /**
   * weave_queue_message: the message at the tail of the module's queue, or,
   * when the queue is full, -ENOMSG with every reference released.
   */
  function QueueMessage(st: State, id: nat, m: Module): (r: (State, int))
    requires id in st.ctxs && Knows(st, m)
    ensures r.0.next == st.next && r.0.runs == st.runs && r.0.slab == st.slab && r.0.queues.Keys == st.queues.Keys
    ensures r.0.ctxs.Keys <= st.ctxs.Keys
  {
    if !m.hasQueue then (st, -EINVAL)
    else
      var q := st.queues[m.id];
      if |q.items| >= q.capacity then
        var refs := st.ctxs[id].refcount;
        (ReleaseAll(st, id, if refs > 0 then refs as nat else 0), -ENOMSG)
      else (st.(queues := st.queues[m.id := q.(items := q.items + [id])]), 0)
  }

  /**
   * weave_queue_async_message up to the queueing: a context with one
   * reference, the request data copied, a reply buffer for a request, and
   * a second reference for a request's sender; then the queueing. Returns
   * the state, the result so far and the context's identifier.
   */
  function Enqueue(st: State, kind: Kind, target: Target, m: Module, data: Option<seq<byte>>, size: nat,
                   reply: bool, replySize: nat, heapOut: bool): (r: (State, int, nat))
    requires Fresh(st) && m.hasQueue && Knows(st, m) && (data.Some? ==> |data.value| >= size)
    ensures Fresh(r.0) && r.0.runs == st.runs && r.0.slab == st.slab && r.0.queues.Keys == st.queues.Keys
  {
    var (s1, o) := Create(st, kind, 1, m.id);
    if o.None? then (st, -ENOMEM, 0)
    else if HeapFails(kind, data, size, reply, replySize, heapOut) then (Free(s1, o.value), -ENOMEM, o.value)
    else
      var q := QueueMessage(s1.(ctxs := s1.ctxs[o.value := Setup(s1.ctxs[o.value], target, data, size, reply, replySize)]), o.value, m);
      (q.0, q.1, o.value)
  }

  /**
   * Whether the data heap fails an allocation the message needs: request
   * data when there is some, or a reply buffer of a request.
   */
  predicate HeapFails(kind: Kind, data: Option<seq<byte>>, size: nat, reply: bool, replySize: nat, heapOut: bool) {
    heapOut && ((data.Some? && size > 0) || (reply && kind == MsgRequest && replySize > 0))
  }

  /**
   * A new context set up for queueing: the request data copied (only when
   * there is some), the reply buffer and its size for a request with a
   * reply, the target, and for a request a second reference for its sender.
   */
  function Setup(c: Ctx, target: Target, data: Option<seq<byte>>, size: nat, reply: bool, replySize: nat): (r: Ctx)
    requires data.Some? ==> |data.value| >= size
    ensures r.home == c.home && r.kind == c.kind && r.completion == c.completion && r.result == c.result
    ensures r.refcount == (if c.kind == MsgRequest then 2 else 1)
  {
    var c2 := c.(request := if data.Some? && size > 0 then Some(data.value[..size]) else None, requestSize := size);
    var c3 := if reply && c.kind == MsgRequest then c2.(reply := replySize > 0, replySize := replySize) else c2;
    c3.(target := Some(target), refcount := if c.kind == MsgRequest then 2 else 1)
  }

  // ---- The receiving side ----

  /** k_sem_give on a completion semaphore of limit 1. */
  function Give(count: nat): (r: nat)
    ensures r >= 1 && (count <= 1 ==> r == 1)
  {
    if count < 1 then count + 1 else count
  }

  /**
   * weave_process_message on the message of context `id` by module `m`
   * (None for NULL). A request runs the method's handler, or gets
   * -ENOTSUP without one, and its result and completion go to the sender;
   * a signal runs its handler if there is one. Either way the receiver's
   * reference is released. The message of a context that is no longer
   * live cannot be in a queue while Inv holds; it is left alone.
   */
  function ProcessMessage(st: State, m: Option<Module>, id: Option<nat>): (r: State)
    ensures r.queues == st.queues && r.next == st.next && r.slab == st.slab
    ensures |st.runs| <= |r.runs| <= |st.runs| + 1 && r.runs[..|st.runs|] == st.runs
  {
    if m.None? || id.None? || id.value !in st.ctxs then st
    else
      var c := st.ctxs[id.value];
      match c.kind
      case MsgRequest =>
        var run := c.target.Some? && c.target.value.ToMethod? && c.target.value.callee.handler.Some?;
        var result := if run then c.target.value.callee.handler.value(m.value.id, c.request, c.reply) else -ENOTSUP;
        var runs := if run then st.runs + [MethodRun(m.value.id, c.request, c.reply)] else st.runs;
        var s1 := st.(ctxs := st.ctxs[id.value := c.(result := result, completion := Give(c.completion))], runs := runs);
        Put(s1, id).0
      case MsgSignal =>
        var run := c.target.Some? && c.target.value.ToHandler? && c.target.value.handler.hasHandler;
        var runs := if run then st.runs + [SignalRun(m.value.id, c.request)] else st.runs;
        Put(st.(runs := runs), id).0
  }

  /** The module's queue with its oldest message taken off. */
  function Pop(st: State, q: nat): (r: State)
    requires q in st.queues && |st.queues[q].items| > 0
    ensures r.ctxs == st.ctxs && r.next == st.next && r.runs == st.runs && r.queues.Keys == st.queues.Keys
  {
    st.(queues := st.queues[q := st.queues[q].(items := st.queues[q].items[1..])])
  }

  /** Up to `n` messages of the module's queue taken and processed, oldest first, with their count. */
  function Serve(st: State, m: Module, n: nat): (r: (State, nat))
    requires m.id in st.queues
    ensures r.0.queues.Keys == st.queues.Keys && r.0.next == st.next && r.0.slab == st.slab
    ensures r.1 == Min(n, |st.queues[m.id].items|)
    ensures r.0.queues[m.id].items == st.queues[m.id].items[r.1..]
    ensures forall q | q in st.queues && q != m.id :: r.0.queues[q] == st.queues[q]
    decreases n
  {
    var items := st.queues[m.id].items;
    if n == 0 || |items| == 0 then (st, 0)
    else
      var s1 := ProcessMessage(Pop(st, m.id), Some(m), Some(items[0]));
      var rest := Serve(s1, m, n - 1);
      assert s1.queues[m.id].items == items[1..];
      assert items[1..][rest.1..] == items[rest.1 + 1..];
      (rest.0, rest.1 + 1)
  }

  /** weave_process_all_messages: every message of the module's queue, with their count; 0 without a queue. */
  function ProcessAll(st: State, m: Option<Module>): (r: (State, nat))
    requires m.Some? ==> Knows(st, m.value)
    ensures r.0.queues.Keys == st.queues.Keys
    ensures m.Some? && m.value.hasQueue ==> r.1 == |st.queues[m.value.id].items| && r.0.queues[m.value.id].items == []
    ensures m.None? || !m.value.hasQueue ==> r == (st, 0)
  {
    if m.None? || !m.value.hasQueue then (st, 0)
    else Serve(st, m.value, |st.queues[m.value.id].items|)
  }

  // ---- The sending side ----

  /**
   * The sender's k_sem_take on the completion with K_NO_WAIT and the
   * release of its reference: -ETIMEDOUT if the receiver has not completed
   * the message, else its result and the number of bytes copied to the
   * caller's reply buffer, which is done only for a zero result.
   */
  function Wait(st: State, id: nat, reply: bool, replySize: nat): (r: (State, int, nat))
    requires id in st.ctxs
    ensures r.0.queues == st.queues && r.0.next == st.next && r.0.runs == st.runs && r.0.slab == st.slab
  {
    var c := st.ctxs[id];
    if c.completion == 0 then (Put(st, Some(id)).0, -ETIMEDOUT, 0)
    else
      var copied := if c.result == 0 && reply && c.replySize > 0 then Min(c.replySize, replySize) else 0;
      (Put(st.(ctxs := st.ctxs[id := c.(completion := c.completion - 1)]), Some(id)).0, c.result, copied)
  }

  /** The checks weave_call_method makes before anything else, in its order. */
  predicate Rejected(port: Option<Port>, request: Option<seq<byte>>, requestSize: nat, reply: bool, replySize: nat) {
    port.None? || port.value.target.None? || port.value.target.value.owner.None?
    || requestSize < port.value.requestSize
    || (reply && replySize < port.value.replySize)
    || (request.None? && requestSize > 0)
  }

  /** What the caller of weave_call_method must supply: a handler wherever the call reaches one directly. */
  predicate Callable(port: Option<Port>) {
    (port.Some? && port.value.target.Some? && port.value.target.value.owner.Some?
     && !port.value.target.value.owner.value.hasQueue) ==> port.value.target.value.handler.Some?
  }

  /**
   * weave_call_method: -EINVAL from the checks; a direct call to a module
   * without a queue; otherwise a queued request, `served` messages of the
   * receiver's queue handled, and the wait. Returns the state, the result
   * and the number of reply bytes copied back.
   */
  function CallMethod(st: State, port: Option<Port>, request: Option<seq<byte>>, requestSize: nat,
                      reply: bool, replySize: nat, heapOut: bool, served: nat): (r: (State, int, nat))
    requires Inv(st, None) && Callable(port) && (request.Some? ==> |request.value| >= requestSize)
    requires port.Some? && port.value.target.Some? && port.value.target.value.owner.Some? ==>
               Knows(st, port.value.target.value.owner.value)
    ensures Inv(r.0, None)
  {
    if Rejected(port, request, requestSize, reply, replySize) then (st, -EINVAL, 0)
    else
      var p := port.value;
      var m := p.target.value;
      var target := m.owner.value;
      if !target.hasQueue then
        (st.(runs := st.runs + [MethodRun(target.id, request, reply)]), m.handler.value(target.id, request, reply), 0)
      else
        var e := Enqueue(st, MsgRequest, ToMethod(m), target, request, p.requestSize, reply, p.replySize, heapOut);
        EnqueueInv(st, MsgRequest, ToMethod(m), target, request, p.requestSize, reply, p.replySize, heapOut);
        if e.1 != 0 then (e.0, e.1, 0)
        else
          var s := Serve(e.0, target, served);
          ServeInv(e.0, target, served, Some(e.2));
          var w := Wait(s.0, e.2, reply, replySize);
          WaitInv(s.0, e.2, reply, replySize);
          w
  }

  /** Every handler a signal reaches directly has a handler function, and every module it queues to is known. */
  predicate Reachable(st: State, hs: seq<Handler>) {
    forall i | 0 <= i < |hs| :: hs[i].owner.Some? ==>
      Knows(st, hs[i].owner.value) && (!hs[i].owner.value.hasQueue ==> hs[i].hasHandler)
  }

  /** The loop of weave_emit_signal over the handlers from index `i` on, with the number reached. */
  function EmitFrom(st: State, hs: seq<Handler>, i: nat, event: Option<seq<byte>>, size: nat, heapOut: bool): (r: (State, nat))
    requires i <= |hs| && Inv(st, None) && Reachable(st, hs) && (event.Some? ==> |event.value| >= size)
    ensures Inv(r.0, None) && Reachable(r.0, hs) && r.1 <= |hs| - i
    decreases |hs| - i
  {
    if i == |hs| then (st, 0)
    else
      var h := hs[i];
      if h.owner.None? then EmitFrom(st, hs, i + 1, event, size, heapOut)
      else if !h.owner.value.hasQueue then
        var s1 := st.(runs := st.runs + [SignalRun(h.owner.value.id, event)]);
        var rest := EmitFrom(s1, hs, i + 1, event, size, heapOut);
        (rest.0, rest.1 + 1)
      else
        var e := Enqueue(st, MsgSignal, ToHandler(h), h.owner.value, event, size, false, 0, heapOut);
        EnqueueInv(st, MsgSignal, ToHandler(h), h.owner.value, event, size, false, 0, heapOut);
        var rest := EmitFrom(e.0, hs, i + 1, event, size, heapOut);
        (rest.0, rest.1 + if e.1 == 0 then 1 else 0)
  }

  /** weave_emit_signal: -EINVAL for NULL, else 0 however many handlers were reached. */
  function EmitSignal(st: State, signal: Option<Signal>, event: Option<seq<byte>>, heapOut: bool): (r: (State, int))
    requires Inv(st, None) && (signal.Some? ==> Reachable(st, signal.value.handlers))
    requires signal.Some? && event.Some? ==> |event.value| >= signal.value.eventSize
    ensures Inv(r.0, None)
    ensures r.1 == 0 || r.1 == -EINVAL
  {
    if signal.None? then (st, -EINVAL)
    else (EmitFrom(st, signal.value.handlers, 0, event, signal.value.eventSize, heapOut).0, 0)
  }

  // ---- Proofs of the invariant ----

  /** Taking the first entry off a queue without repeats. */
  lemma DistinctTail(items: seq<nat>)
    requires Distinct(items) && |items| > 0
    ensures Distinct(items[1..]) && items[0] !in items[1..]
    ensures forall x | x != items[0] :: x in items <==> x in items[1..]
  {
    assert items == [items[0]] + items[1..];
    forall k | 0 <= k < |items[1..]| ensures items[1..][k] != items[0] {
      assert items[1..][k] == items[k + 1];
    }
  }

  /** Adding a new entry at the tail of a queue without repeats. */
  lemma DistinctAppend(items: seq<nat>, x: nat)
    requires Distinct(items) && x !in items
    ensures Distinct(items + [x])
    ensures forall y :: y in items + [x] <==> y in items || y == x
  {
  }

  /**
   * What processing the message of a live context does to the contexts:
   * the others stay as they were, and the processed one loses a reference,
   * which frees it when it was the last.
   */
  lemma ProcessMessageCtxs(st: State, m: Module, h: nat)
    requires h in st.ctxs
    ensures var r := ProcessMessage(st, Some(m), Some(h));
      (forall id | id in r.ctxs :: id in st.ctxs)
      && (forall id | id in st.ctxs && id != h :: id in r.ctxs && r.ctxs[id] == st.ctxs[id])
      && (h in r.ctxs <==> st.ctxs[h].refcount != 1)
      && (h in r.ctxs ==> r.ctxs[h].refcount == st.ctxs[h].refcount - 1 && r.ctxs[h].home == st.ctxs[h].home)
  {
  }

  /** Whether a context other than the head is queued does not change when the head is taken off. */
  lemma PopQueued(st: State, q: nat, id: nat)
    requires q in st.queues && |st.queues[q].items| > 0 && Distinct(st.queues[q].items)
    requires id in st.ctxs && id != st.queues[q].items[0]
    ensures Queued(Pop(st, q), id) == Queued(st, id)
  {
    DistinctTail(st.queues[q].items);
  }

  /** Taking the oldest message off a queue and processing it keeps the invariant. */
  lemma ProcessHeadInv(st: State, m: Module, held: Option<nat>)
    requires Inv(st, held) && m.id in st.queues && |st.queues[m.id].items| > 0
    ensures Inv(ProcessMessage(Pop(st, m.id), Some(m), Some(st.queues[m.id].items[0])), held)
  {
    var items := st.queues[m.id].items;
    var h := items[0];
    var s1 := Pop(st, m.id);
    var r := ProcessMessage(s1, Some(m), Some(h));
    assert Homed(st, m.id) && Distinct(items);
    assert h in st.ctxs && st.ctxs[h].home == m.id;
    DistinctTail(items);
    ProcessMessageCtxs(s1, m, h);
    assert r.queues == s1.queues;
    forall q | q in r.queues
      ensures Homed(r, q) && Distinct(r.queues[q].items)
    {
      assert Homed(st, q) && Distinct(st.queues[q].items);
      forall x | x in r.queues[q].items ensures x in r.ctxs && r.ctxs[x].home == q {
        assert x in st.queues[q].items;
        assert x != h;
      }
    }
    forall id | id in r.ctxs
      ensures r.ctxs[id].refcount == (if Queued(r, id) then 1 else 0) + (if held == Some(id) then 1 else 0)
      ensures r.ctxs[id].refcount >= 1
    {
      if id == h {
        assert !Queued(r, id);
      } else {
        PopQueued(st, m.id, id);
        assert Queued(r, id) == Queued(s1, id);
      }
    }
  }

  /** Serving any number of messages keeps the invariant. */
  /** One message taken and processed, then the rest served. */
  lemma ServeStep(st: State, t: Module, k: nat)
    requires t.id in st.queues && k > 0 && |st.queues[t.id].items| > 0
    ensures var s1 := ProcessMessage(Pop(st, t.id), Some(t), Some(st.queues[t.id].items[0]));
      Serve(st, t, k) == (Serve(s1, t, k - 1).0, Serve(s1, t, k - 1).1 + 1)
  {
  }

  /** Serving nothing, or from an empty queue, changes nothing. */
  lemma ServeNone(st: State, t: Module, k: nat)
    requires t.id in st.queues && (k == 0 || |st.queues[t.id].items| == 0)
    ensures Serve(st, t, k) == (st, 0)
  {
  }

  /** Taking and processing the oldest message of m's queue keeps P. */
  ghost predicate StepKeeps(P: State -> bool, m: Module) {
    forall s: State {:trigger Pop(s, m.id)} | m.id in s.queues && |s.queues[m.id].items| > 0 && P(s) ::
      P(ProcessMessage(Pop(s, m.id), Some(m), Some(s.queues[m.id].items[0])))
  }

  /** A property each step keeps holds after serving any number of messages. */
  lemma {:induction false} ServePreserves(P: State -> bool, st: State, m: Module, n: nat)
    requires m.id in st.queues && P(st) && StepKeeps(P, m)
    ensures P(Serve(st, m, n).0)
    decreases n
  {
    if n > 0 && |st.queues[m.id].items| > 0 {
      ServePreserves(P, ProcessMessage(Pop(st, m.id), Some(m), Some(st.queues[m.id].items[0])), m, n - 1);
    }
  }

  lemma ServeInv(st: State, m: Module, n: nat, held: Option<nat>)
    requires Inv(st, held) && m.id in st.queues
    ensures Inv(Serve(st, m, n).0, held)
  {
    var P := (s: State) => Inv(s, held);
    forall s: State | m.id in s.queues && |s.queues[m.id].items| > 0 && P(s)
      ensures P(ProcessMessage(Pop(s, m.id), Some(m), Some(s.queues[m.id].items[0])))
    {
      ProcessHeadInv(s, m, held);
    }
    ServePreserves(P, st, m, n);
  }

  /** A context created and freed again leaves the live contexts as they were. */
  lemma CreateFree(st: State, kind: Kind, home: nat)
    requires Fresh(st) && |st.ctxs| < st.slab
    ensures var r := Create(st, kind, 1, home);
      Free(r.0, r.1.value).ctxs == st.ctxs
  {
    var r := Create(st, kind, 1, home);
    assert Free(r.0, r.1.value).ctxs.Keys == st.ctxs.Keys;
  }

  /** Releasing all of a context's references frees it and changes nothing else. */
  lemma {:induction false} ReleaseAllFrees(st: State, id: nat, n: nat)
    requires id in st.ctxs && n >= 1 && st.ctxs[id].refcount == n
    ensures ReleaseAll(st, id, n) == Free(st, id)
    decreases n
  {
    if n > 1 {
      var s1 := Put(st, Some(id)).0;
      ReleaseAllFrees(s1, id, n - 1);
      assert Free(s1, id).ctxs == Free(st, id).ctxs;
    }
  }

  /** Putting a fresh context with the right count at the tail of its home queue keeps the invariant. */
  lemma EnqueuedInv(st: State, s2: State, id: nat, m: Module, held: Option<nat>)
    requires Inv(st, None) && m.id in st.queues && id == st.next
    requires s2.queues == st.queues && s2.next == st.next + 1 && s2.ctxs.Keys == st.ctxs.Keys + {id}
    requires forall x | x in st.ctxs :: s2.ctxs[x] == st.ctxs[x]
    requires s2.ctxs[id].home == m.id && s2.ctxs[id].refcount == 1 + (if held == Some(id) then 1 else 0)
    requires held.Some? ==> held.value == id
    ensures Inv(s2.(queues := s2.queues[m.id := s2.queues[m.id].(items := s2.queues[m.id].items + [id])]), held)
  {
    var items := st.queues[m.id].items;
    var r := s2.(queues := s2.queues[m.id := s2.queues[m.id].(items := items + [id])]);
    assert Homed(st, m.id) && Distinct(items);
    forall x | x in items ensures x != id {
      assert x in st.ctxs;
    }
    DistinctAppend(items, id);
    forall q | q in r.queues
      ensures Homed(r, q) && Distinct(r.queues[q].items)
    {
      assert Homed(st, q) && Distinct(st.queues[q].items);
    }
    forall x | x in r.ctxs
      ensures r.ctxs[x].refcount == (if Queued(r, x) then 1 else 0) + (if held == Some(x) then 1 else 0)
      ensures r.ctxs[x].refcount >= 1
    {
      if x != id {
        assert Queued(r, x) == Queued(st, x);
      }
    }
  }

  /** Changing what a live context holds, but not its count or home, keeps the invariant. */
  lemma InvFrame(st: State, s2: State, held: Option<nat>)
    requires Inv(st, held) && s2.queues == st.queues && s2.next >= st.next && s2.ctxs.Keys == st.ctxs.Keys
    requires forall x | x in st.ctxs :: s2.ctxs[x].refcount == st.ctxs[x].refcount && s2.ctxs[x].home == st.ctxs[x].home
    ensures Inv(s2, held)
  {
    forall q | q in s2.queues ensures Homed(s2, q) && Distinct(s2.queues[q].items) {
      assert Homed(st, q) && Distinct(st.queues[q].items);
    }
    forall x | x in s2.ctxs ensures Queued(s2, x) == Queued(st, x) {}
  }

  /** A failed enqueue leaves the live contexts and the queues as they were. */
  lemma EnqueueFailed(st: State, kind: Kind, target: Target, m: Module, data: Option<seq<byte>>, size: nat,
                      reply: bool, replySize: nat, heapOut: bool)
    requires Fresh(st) && m.hasQueue && Knows(st, m) && (data.Some? ==> |data.value| >= size)
    ensures var r := Enqueue(st, kind, target, m, data, size, reply, replySize, heapOut);
      r.1 != 0 ==> r.0.ctxs == st.ctxs && r.0.queues == st.queues
  {
    var (s1, o) := Create(st, kind, 1, m.id);
    if o.Some? {
      var id := o.value;
      CreateFree(st, kind, m.id);
      if !HeapFails(kind, data, size, reply, replySize, heapOut) {
        var c4 := Setup(s1.ctxs[id], target, data, size, reply, replySize);
        var s2 := s1.(ctxs := s1.ctxs[id := c4]);
        var q := st.queues[m.id];
        if |q.items| >= q.capacity {
          FullQueueFrees(s2, id, m);
          assert Free(s2, id).ctxs == Free(s1, id).ctxs;
        }
      }
    }
  }

  /** Queueing on a full queue frees the context and touches nothing else. */
  lemma FullQueueFrees(st: State, id: nat, m: Module)
    requires id in st.ctxs && Knows(st, m) && m.hasQueue && st.ctxs[id].refcount >= 1
    requires |st.queues[m.id].items| >= st.queues[m.id].capacity
    ensures QueueMessage(st, id, m) == (Free(st, id), -ENOMSG)
  {
    ReleaseAllFrees(st, id, st.ctxs[id].refcount as nat);
  }

  /** A successful enqueue puts the new context, with its count, at the tail of its home queue. */
  lemma EnqueueQueued(st: State, kind: Kind, target: Target, m: Module, data: Option<seq<byte>>, size: nat,
                      reply: bool, replySize: nat, heapOut: bool)
    requires Inv(st, None) && m.hasQueue && Knows(st, m) && (data.Some? ==> |data.value| >= size)
    requires Enqueue(st, kind, target, m, data, size, reply, replySize, heapOut).1 == 0
    ensures var r := Enqueue(st, kind, target, m, data, size, reply, replySize, heapOut);
      Inv(r.0, if kind == MsgRequest then Some(r.2) else None) && r.2 in r.0.ctxs
      && r.0.ctxs[r.2].kind == kind && r.0.ctxs[r.2].completion == 0
  {
    var (s1, o) := Create(st, kind, 1, m.id);
    var id := o.value;
    var s2 := s1.(ctxs := s1.ctxs[id := Setup(s1.ctxs[id], target, data, size, reply, replySize)]);
    var q := st.queues[m.id];
    assert |q.items| < q.capacity;
    assert Enqueue(st, kind, target, m, data, size, reply, replySize, heapOut)
        == (s2.(queues := s2.queues[m.id := s2.queues[m.id].(items := s2.queues[m.id].items + [id])]), 0, id);
    EnqueuedInv(st, s2, id, m, if kind == MsgRequest then Some(id) else None);
  }

  /**
   * Enqueueing keeps the invariant: a failure leaves the live contexts as
   * they were, a queued signal is held by its queue entry alone, and a
   * queued request is held by its entry and by its sender.
   */
  lemma EnqueueInv(st: State, kind: Kind, target: Target, m: Module, data: Option<seq<byte>>, size: nat,
                   reply: bool, replySize: nat, heapOut: bool)
    requires Inv(st, None) && m.hasQueue && Knows(st, m) && (data.Some? ==> |data.value| >= size)
    ensures var r := Enqueue(st, kind, target, m, data, size, reply, replySize, heapOut);
      (r.1 != 0 ==> r.0.ctxs == st.ctxs && r.0.queues == st.queues && Inv(r.0, None))
      && (r.1 == 0 ==> Inv(r.0, if kind == MsgRequest then Some(r.2) else None) && r.2 in r.0.ctxs
                       && r.0.ctxs[r.2].kind == kind && r.0.ctxs[r.2].completion == 0)
  {
    var r := Enqueue(st, kind, target, m, data, size, reply, replySize, heapOut);
    if r.1 != 0 {
      EnqueueFailed(st, kind, target, m, data, size, reply, replySize, heapOut);
      InvFrame(st, r.0, None);
    } else {
      EnqueueQueued(st, kind, target, m, data, size, reply, replySize, heapOut);
    }
  }

  /** The sender releasing its reference leaves the invariant with no sender. */
  lemma ReleaseHeldInv(st: State, id: nat)
    requires Inv(st, Some(id))
    ensures Inv(Put(st, Some(id)).0, None)
  {
    var c := st.ctxs[id];
    if c.refcount == 1 {
      var r := Free(st, id);
      assert Put(st, Some(id)).0 == r;
      assert !Queued(st, id);
      forall q | q in r.queues ensures Homed(r, q) && Distinct(r.queues[q].items) {
        assert Homed(st, q) && Distinct(st.queues[q].items);
      }
      forall x | x in r.ctxs
        ensures r.ctxs[x].refcount == (if Queued(r, x) then 1 else 0)
      {
        assert Queued(r, x) == Queued(st, x);
      }
    } else {
      var r := st.(ctxs := st.ctxs[id := c.(refcount := c.refcount - 1)]);
      assert Put(st, Some(id)).0 == r;
      forall q | q in r.queues ensures Homed(r, q) && Distinct(r.queues[q].items) {
        assert Homed(st, q) && Distinct(st.queues[q].items);
      }
      forall x | x in r.ctxs
        ensures r.ctxs[x].refcount == (if Queued(r, x) then 1 else 0)
      {
        assert Queued(r, x) == Queued(st, x);
      }
    }
  }

  /** The sender's wait and release keeps the invariant, with no sender left. */
  lemma WaitInv(st: State, id: nat, reply: bool, replySize: nat)
    requires Inv(st, Some(id))
    ensures Inv(Wait(st, id, reply, replySize).0, None)
  {
    var c := st.ctxs[id];
    if c.completion == 0 {
      ReleaseHeldInv(st, id);
    } else {
      var s1 := st.(ctxs := st.ctxs[id := c.(completion := c.completion - 1)]);
      InvFrame(st, s1, Some(id));
      ReleaseHeldInv(s1, id);
    }
  }

  // ---- Properties ----

  /**
   * weave_context_put frees the context exactly when it held the last
   * reference, and reports true exactly then; every other context stays.
   */
  lemma PutFreesLast(st: State, id: nat)
    requires id in st.ctxs
    ensures var r := Put(st, Some(id));
      (r.1 <==> st.ctxs[id].refcount == 1)
      && (r.1 <==> id !in r.0.ctxs)
      && (!r.1 ==> r.0.ctxs[id].refcount == st.ctxs[id].refcount - 1)
      && (forall x | x in st.ctxs && x != id :: x in r.0.ctxs && r.0.ctxs[x] == st.ctxs[x])
    ensures Put(st, None) == (st, false)
  {
  }

  /**
   * How a message is queued: with two references and the result
   * -ETIMEDOUT for a request, one reference for a signal, and no completion
   * yet. An exhausted slab gives -ENOMEM and changes nothing; an exhausted
   * data heap gives -ENOMEM and a full queue -ENOMSG, the new context being
   * freed in both cases.
   */
  lemma EnqueueOutcome(st: State, kind: Kind, target: Target, m: Module, data: Option<seq<byte>>, size: nat,
                       reply: bool, replySize: nat, heapOut: bool)
    requires Inv(st, None) && m.hasQueue && Knows(st, m) && (data.Some? ==> |data.value| >= size)
    ensures var r := Enqueue(st, kind, target, m, data, size, reply, replySize, heapOut);
      var q := st.queues[m.id];
      (|st.ctxs| >= st.slab ==> r.0 == st && r.1 == -ENOMEM)
      && (|st.ctxs| < st.slab && HeapFails(kind, data, size, reply, replySize, heapOut) ==>
            r.1 == -ENOMEM && r.0.ctxs == st.ctxs && r.0.queues == st.queues)
      && (|st.ctxs| < st.slab && !HeapFails(kind, data, size, reply, replySize, heapOut) && |q.items| >= q.capacity ==>
            r.1 == -ENOMSG && r.0.ctxs == st.ctxs && r.0.queues == st.queues)
      && (|st.ctxs| < st.slab && !HeapFails(kind, data, size, reply, replySize, heapOut) && |q.items| < q.capacity ==>
            r.1 == 0 && r.2 == st.next && r.0.queues[m.id].items == q.items + [r.2]
            && r.0.ctxs[r.2].refcount == (if kind == MsgRequest then 2 else 1)
            && r.0.ctxs[r.2].result == (if kind == MsgRequest then -ETIMEDOUT else 0)
            && r.0.ctxs[r.2].completion == 0 && r.0.ctxs[r.2].target == Some(target))
  {
    EnqueueInv(st, kind, target, m, data, size, reply, replySize, heapOut);
  }

  /** A call whose checks fail returns -EINVAL and changes nothing. */
  lemma CallRejected(st: State, port: Option<Port>, request: Option<seq<byte>>, requestSize: nat,
                     reply: bool, replySize: nat, heapOut: bool, served: nat)
    requires Inv(st, None) && Callable(port) && (request.Some? ==> |request.value| >= requestSize)
    requires port.Some? && port.value.target.Some? && port.value.target.value.owner.Some? ==>
               Knows(st, port.value.target.value.owner.value)
    requires Rejected(port, request, requestSize, reply, replySize)
    ensures CallMethod(st, port, request, requestSize, reply, replySize, heapOut, served) == (st, -EINVAL, 0)
  {
  }

  /** A call that passes the checks to a module without a queue runs the handler once and returns its result. */
  lemma DirectCall(st: State, port: Option<Port>, request: Option<seq<byte>>, requestSize: nat,
                   reply: bool, replySize: nat, heapOut: bool, served: nat)
    requires Inv(st, None) && Callable(port) && (request.Some? ==> |request.value| >= requestSize)
    requires !Rejected(port, request, requestSize, reply, replySize)
    requires !port.value.target.value.owner.value.hasQueue
    ensures var m := port.value.target.value;
      var id := m.owner.value.id;
      CallMethod(st, port, request, requestSize, reply, replySize, heapOut, served)
      == (st.(runs := st.runs + [MethodRun(id, request, reply)]), m.handler.value(id, request, reply), 0)
  {
  }

  /** The request data a queued handler sees: a copy of the port's request size, or NULL when there is none. */
  function QueuedRequest(p: Port, request: Option<seq<byte>>): Option<seq<byte>>
    requires request.Some? ==> |request.value| >= p.requestSize
  {
    if request.Some? && p.requestSize > 0 then Some(request.value[..p.requestSize]) else None
  }

  /**
   * A queued call that the receiver serves before the sender's wait, to a
   * module whose queue was empty: the handler runs once on a copy of the
   * request, or the call gets -ENOTSUP when the method has no handler. The
   * result comes back to the caller, the reply is copied only on a zero
   * result, and the context is freed: afterwards the live contexts and the
   * queues are as before.
   */
  lemma QueuedCallServed(st: State, port: Option<Port>, request: Option<seq<byte>>, requestSize: nat,
                         reply: bool, replySize: nat, served: nat)
    requires Inv(st, None) && Callable(port) && (request.Some? ==> |request.value| >= requestSize)
    requires !Rejected(port, request, requestSize, reply, replySize)
    requires var t := port.value.target.value.owner.value;
      t.hasQueue && t.id in st.queues && st.queues[t.id].items == [] && st.queues[t.id].capacity > 0
    requires |st.ctxs| < st.slab && served >= 1
    ensures var p := port.value;
      var m := p.target.value;
      var id := m.owner.value.id;
      var req := QueuedRequest(p, request);
      var rep := reply && p.replySize > 0;
      var result := if m.handler.Some? then m.handler.value(id, req, rep) else -ENOTSUP;
      var r := CallMethod(st, port, request, requestSize, reply, replySize, false, served);
      r.1 == result && r.2 == (if result == 0 && rep then p.replySize else 0)
      && r.0.ctxs == st.ctxs && r.0.queues == st.queues
      && r.0.runs == st.runs + (if m.handler.Some? then [MethodRun(id, req, rep)] else [])
  {
    var p := port.value;
    var m := p.target.value;
    var t := m.owner.value;
    var req := QueuedRequest(p, request);
    var rep := reply && p.replySize > 0;
    var id := st.next;
    var c := Ctx(MsgRequest, 2, -ETIMEDOUT, 0, Some(ToMethod(m)), req, p.requestSize, rep,
                 if reply then p.replySize else 0, t.id);
    var e0 := st.(ctxs := st.ctxs[id := c], next := st.next + 1,
                  queues := st.queues[t.id := Queue([id], st.queues[t.id].capacity)]);
    CallEnqueued(st, p, request, reply);
    ServeSingle(e0, t, id, served);
    var s3 := ProcessMessage(Pop(e0, t.id), Some(t), Some(id));
    CallQueuedPath(st, port, request, requestSize, reply, replySize, false, served);
    ServedThenWait(e0, t, id, c, reply, replySize);
    var w := Wait(s3, id, reply, replySize);
    assert c.target.value.callee == m && c.request == req && c.reply == rep;
    var result := if m.handler.Some? then m.handler.value(t.id, req, rep) else -ENOTSUP;
    assert w.1 == result;
    assert CallMethod(st, port, request, requestSize, reply, replySize, false, served) == w;
    assert id !in st.ctxs;
    RestoreQueue(st.queues, t.id, id);
    RestoreCtxs(st.ctxs, id, c);
  }

  lemma RestoreQueue(qs: map<nat, Queue>, t: nat, id: nat)
    requires t in qs && qs[t].items == []
    ensures var q1 := qs[t := Queue([id], qs[t].capacity)];
      q1[t := q1[t].(items := q1[t].items[1..])] == qs
  {
    var q1 := qs[t := Queue([id], qs[t].capacity)];
    assert q1[t].items[1..] == [];
    assert q1[t := q1[t].(items := q1[t].items[1..])].Keys == qs.Keys;
  }

  lemma RestoreCtxs(cs: map<nat, Ctx>, id: nat, c: Ctx)
    requires id !in cs
    ensures cs[id := c] - {id} == cs
  {
    assert (cs[id := c] - {id}).Keys == cs.Keys;
  }

  /** A call that passes the checks to a module with a queue: the enqueue, the receiver serving, the wait. */
  lemma CallQueuedPath(st: State, port: Option<Port>, request: Option<seq<byte>>, requestSize: nat,
                       reply: bool, replySize: nat, heapOut: bool, served: nat)
    requires Inv(st, None) && Callable(port) && (request.Some? ==> |request.value| >= requestSize)
    requires !Rejected(port, request, requestSize, reply, replySize)
    requires var t := port.value.target.value.owner.value;
      t.hasQueue && t.id in st.queues
    ensures var p := port.value;
      var m := p.target.value;
      var t := m.owner.value;
      var e := Enqueue(st, MsgRequest, ToMethod(m), t, request, p.requestSize, reply, p.replySize, heapOut);
      e.1 == 0 ==>
        e.2 in Serve(e.0, t, served).0.ctxs
        && CallMethod(st, port, request, requestSize, reply, replySize, heapOut, served)
           == Wait(Serve(e.0, t, served).0, e.2, reply, replySize)
  {
    var p := port.value;
    var m := p.target.value;
    var t := m.owner.value;
    EnqueueInv(st, MsgRequest, ToMethod(m), t, request, p.requestSize, reply, p.replySize, heapOut);
    var e := Enqueue(st, MsgRequest, ToMethod(m), t, request, p.requestSize, reply, p.replySize, heapOut);
    if e.1 == 0 {
      ServeInv(e.0, t, served, Some(e.2));
    }
  }

  /** A request alone in its queue, served and then waited for by its sender. */
  lemma ServedThenWait(s: State, t: Module, id: nat, c: Ctx, reply: bool, replySize: nat)
    requires t.id in s.queues && s.queues[t.id].items == [id] && id in s.ctxs && s.ctxs[id] == c
    requires c.kind == MsgRequest && c.refcount == 2 && c.completion == 0 && c.target.Some? && c.target.value.ToMethod?
    ensures var m := c.target.value.callee;
      var result := if m.handler.Some? then m.handler.value(t.id, c.request, c.reply) else -ENOTSUP;
      var w := Wait(ProcessMessage(Pop(s, t.id), Some(t), Some(id)), id, reply, replySize);
      w.1 == result && w.2 == (if result == 0 && reply && c.replySize > 0 then Min(c.replySize, replySize) else 0)
      && w.0.ctxs == s.ctxs - {id} && w.0.queues == Pop(s, t.id).queues
      && w.0.runs == s.runs + (if m.handler.Some? then [MethodRun(t.id, c.request, c.reply)] else [])
  {
    var m := c.target.value.callee;
    var result := if m.handler.Some? then m.handler.value(t.id, c.request, c.reply) else -ENOTSUP;
    var s3 := ProcessMessage(Pop(s, t.id), Some(t), Some(id));
    assert s3.ctxs == s.ctxs[id := c.(result := result, completion := 1, refcount := 1)];
  }

  /** The queued request of QueuedCallServed, as it sits in the receiver's queue. */
  lemma CallEnqueued(st: State, p: Port, request: Option<seq<byte>>, reply: bool)
    requires Inv(st, None) && p.target.Some? && p.target.value.owner.Some? && (request.Some? ==> |request.value| >= p.requestSize)
    requires var t := p.target.value.owner.value;
      t.hasQueue && t.id in st.queues && st.queues[t.id].items == [] && st.queues[t.id].capacity > 0
    requires |st.ctxs| < st.slab
    ensures var m := p.target.value;
      var t := m.owner.value;
      var c := Ctx(MsgRequest, 2, -ETIMEDOUT, 0, Some(ToMethod(m)), QueuedRequest(p, request), p.requestSize,
                   reply && p.replySize > 0, if reply then p.replySize else 0, t.id);
      Enqueue(st, MsgRequest, ToMethod(m), t, request, p.requestSize, reply, p.replySize, false)
      == (st.(ctxs := st.ctxs[st.next := c], next := st.next + 1,
              queues := st.queues[t.id := Queue([st.next], st.queues[t.id].capacity)]), 0, st.next)
  {
    var m := p.target.value;
    var t := m.owner.value;
    var (s1, o) := Create(st, MsgRequest, 1, t.id);
    var id := o.value;
    var s2 := s1.(ctxs := s1.ctxs[id := Setup(s1.ctxs[id], ToMethod(m), request, p.requestSize, reply, p.replySize)]);
    var c := Ctx(MsgRequest, 2, -ETIMEDOUT, 0, Some(ToMethod(m)), QueuedRequest(p, request), p.requestSize,
                 reply && p.replySize > 0, if reply then p.replySize else 0, t.id);
    assert !HeapFails(MsgRequest, request, p.requestSize, reply, p.replySize, false);
    assert s1.ctxs[id] == Ctx(MsgRequest, 1, -ETIMEDOUT, 0, None, None, 0, false, 0, t.id);
    assert Setup(s1.ctxs[id], ToMethod(m), request, p.requestSize, reply, p.replySize) == c;
    assert s2.queues[t.id].items + [id] == [id];
    assert QueueMessage(s2, id, t) == (s2.(queues := s2.queues[t.id := Queue([id], st.queues[t.id].capacity)]), 0);
    assert Enqueue(st, MsgRequest, ToMethod(m), t, request, p.requestSize, reply, p.replySize, false)
        == (s2.(queues := s2.queues[t.id := Queue([id], st.queues[t.id].capacity)]), 0, id);
    assert s2.ctxs == st.ctxs[st.next := c];
  }

  /** Serving a queue that holds one message processes that message. */
  lemma ServeSingle(st: State, t: Module, id: nat, served: nat)
    requires t.id in st.queues && st.queues[t.id].items == [id] && served >= 1
    ensures Serve(st, t, served) == (ProcessMessage(Pop(st, t.id), Some(t), Some(id)), 1)
  {
    var s3 := ProcessMessage(Pop(st, t.id), Some(t), Some(id));
    assert s3.queues[t.id].items == [];
    assert Serve(s3, t, served - 1) == (s3, 0);
  }

  /**
   * A queued call that the receiver has not served by the time of the wait
   * times out, with nothing copied; the context stays queued with the
   * receiver's reference alone, for the receiver to release.
   */
  lemma QueuedCallTimesOut(st: State, port: Option<Port>, request: Option<seq<byte>>, requestSize: nat,
                           reply: bool, replySize: nat, heapOut: bool)
    requires Inv(st, None) && Callable(port) && (request.Some? ==> |request.value| >= requestSize)
    requires !Rejected(port, request, requestSize, reply, replySize)
    requires var t := port.value.target.value.owner.value;
      t.hasQueue && t.id in st.queues
    ensures var t := port.value.target.value.owner.value;
      var r := CallMethod(st, port, request, requestSize, reply, replySize, heapOut, 0);
      r.1 == 0 || r.1 == -ENOMEM || r.1 == -ENOMSG || r.1 == -ETIMEDOUT
    ensures var t := port.value.target.value.owner.value;
      var r := CallMethod(st, port, request, requestSize, reply, replySize, heapOut, 0);
      r.1 == -ETIMEDOUT ==> r.2 == 0 && r.0.queues[t.id].items == st.queues[t.id].items + [st.next]
                            && st.next in r.0.ctxs && r.0.ctxs[st.next].refcount == 1
  {
    var p := port.value;
    var m := p.target.value;
    var t := m.owner.value;
    EnqueueOutcome(st, MsgRequest, ToMethod(m), t, request, p.requestSize, reply, p.replySize, heapOut);
  }

  /** The runs of handlers that a signal reaches directly, in order; handlers without a module are skipped. */
  function DirectRuns(hs: seq<Handler>, event: Option<seq<byte>>): (r: seq<Run>)
    ensures |r| <= |hs|
  {
    if |hs| == 0 then []
    else (if hs[0].owner.Some? then [SignalRun(hs[0].owner.value.id, event)] else []) + DirectRuns(hs[1..], event)
  }

  /**
   * A signal whose handlers all belong to modules without queues runs the
   * handler of every one that has a module, in wiring order, skips those
   * without, and queues nothing.
   */
  lemma {:induction false} EmitDirect(st: State, hs: seq<Handler>, i: nat, event: Option<seq<byte>>, size: nat, heapOut: bool)
    requires i <= |hs| && Inv(st, None) && Reachable(st, hs) && (event.Some? ==> |event.value| >= size)
    requires forall k | i <= k < |hs| :: hs[k].owner.Some? ==> !hs[k].owner.value.hasQueue
    ensures EmitFrom(st, hs, i, event, size, heapOut)
            == (st.(runs := st.runs + DirectRuns(hs[i..], event)), |DirectRuns(hs[i..], event)|)
    decreases |hs| - i
  {
    if i < |hs| {
      assert hs[i..][0] == hs[i] && hs[i..][1..] == hs[i + 1..];
      if hs[i].owner.None? {
        EmitDirect(st, hs, i + 1, event, size, heapOut);
        assert DirectRuns(hs[i..], event) == DirectRuns(hs[i + 1..], event);
      } else {
        var s1 := st.(runs := st.runs + [SignalRun(hs[i].owner.value.id, event)]);
        RunsFrame(st, s1.runs, hs);
        assert EmitFrom(st, hs, i, event, size, heapOut)
            == (EmitFrom(s1, hs, i + 1, event, size, heapOut).0, EmitFrom(s1, hs, i + 1, event, size, heapOut).1 + 1);
        EmitDirect(s1, hs, i + 1, event, size, heapOut);
        assert s1.runs + DirectRuns(hs[i + 1..], event) == st.runs + DirectRuns(hs[i..], event);
      }
    } else {
      assert DirectRuns(hs[i..], event) == [];
      assert st.runs + [] == st.runs;
    }
  }

  /**
   * weave_emit_signal returns 0 for any signal, however many of its
   * handlers were reached, and -EINVAL only for NULL.
   */
  lemma EmitResult(st: State, signal: Option<Signal>, event: Option<seq<byte>>, heapOut: bool)
    requires Inv(st, None) && (signal.Some? ==> Reachable(st, signal.value.handlers))
    requires signal.Some? && event.Some? ==> |event.value| >= signal.value.eventSize
    ensures EmitSignal(st, signal, event, heapOut).1 == 0 <==> signal.Some?
    ensures signal.None? ==> EmitSignal(st, signal, event, heapOut) == (st, -EINVAL)
  {
  }

  /**
   * No context leaks: once every queue has been drained, no context is
   * live, so every reference taken was released.
   */
  lemma DrainedFreesAll(st: State)
    requires Inv(st, None)
    requires forall q | q in st.queues :: st.queues[q].items == []
    ensures st.ctxs == map[]
  {
  }

  /** weave_process_all_messages empties the module's queue and keeps the invariant. */
  lemma ProcessAllInv(st: State, m: Module)
    requires Inv(st, None) && Knows(st, m)
    ensures Inv(ProcessAll(st, Some(m)).0, None)
    ensures m.hasQueue ==> ProcessAll(st, Some(m)).0.queues[m.id].items == []
  {
    if m.hasQueue {
      ServeInv(st, m, |st.queues[m.id].items|, None);
    }
  }

  /**
   * `count` messages served so far have brought the state to cur, and
   * serving the `left` still allowed from cur completes `goal`, the result
   * of the whole serve.
   */
  ghost predicate Served(goal: (State, nat), cur: State, t: Module, left: nat, count: nat)
    requires t.id in cur.queues
  {
    var rest := Serve(cur, t, left);
    goal == (rest.0, count + rest.1)
  }

  /** Before the first message, nothing is served yet. */
  lemma ServedStart(cur: State, t: Module, n: nat)
    requires t.id in cur.queues
    ensures Served(Serve(cur, t, n), cur, t, n, 0)
  {
    var rest := Serve(cur, t, n);
    assert rest == (rest.0, 0 + rest.1);
  }

  /** One more message taken and processed. */
  lemma ServedStep(goal: (State, nat), cur: State, s1: State, t: Module, left: nat, count: nat)
    requires t.id in cur.queues && left > 0 && |cur.queues[t.id].items| > 0
    requires Served(goal, cur, t, left, count)
    requires s1 == ProcessMessage(Pop(cur, t.id), Some(t), Some(cur.queues[t.id].items[0]))
    ensures t.id in s1.queues && Served(goal, s1, t, left - 1, count + 1)
  {
    ServeUnfold(cur, t, left);
  }

  /** Serving k > 0 messages from a non-empty queue processes the first and serves k - 1 more. */
  lemma ServeUnfold(st: State, t: Module, k: nat)
    requires t.id in st.queues && k > 0 && |st.queues[t.id].items| > 0
    ensures var s1 := ProcessMessage(Pop(st, t.id), Some(t), Some(st.queues[t.id].items[0]));
      t.id in s1.queues
      && Serve(st, t, k) == (Serve(s1, t, k - 1).0, Serve(s1, t, k - 1).1 + 1)
  {
  }

  /** Serving stops when no more messages are allowed or the queue is empty. */
  lemma ServedDone(goal: (State, nat), cur: State, t: Module, left: nat, count: nat)
    requires t.id in cur.queues
    requires Served(goal, cur, t, left, count) && (left == 0 || |cur.queues[t.id].items| == 0)
    ensures goal == (cur, count)
  {
  }

  /** Recording handler runs keeps the invariant and what a signal's handlers can reach. */
  lemma RunsFrame(st: State, runs: seq<Run>, hs: seq<Handler>)
    requires Inv(st, None) && Reachable(st, hs)
    ensures Inv(st.(runs := runs), None) && Reachable(st.(runs := runs), hs)
  {
    InvFrame(st, st.(runs := runs), None);
  }

  /**
   * One pass of the emit loop over handler `i` took the state from st to
   * s1 and reached `sent` handlers: the invariant holds in s1, and the
   * rest of the loop from s1 finishes what the loop from st would.
   */
  ghost predicate Emitted(st: State, s1: State, hs: seq<Handler>, i: nat, sent: nat, event: Option<seq<byte>>, size: nat, heapOut: bool)
    requires i < |hs| && Inv(st, None) && Reachable(st, hs) && (event.Some? ==> |event.value| >= size)
  {
    Inv(s1, None) && Reachable(s1, hs)
    && var rest := EmitFrom(s1, hs, i + 1, event, size, heapOut);
       EmitFrom(st, hs, i, event, size, heapOut) == (rest.0, sent + rest.1)
  }

  /** A handler without a module is skipped. */
  lemma EmitSkip(st: State, hs: seq<Handler>, i: nat, event: Option<seq<byte>>, size: nat, heapOut: bool)
    requires i < |hs| && Inv(st, None) && Reachable(st, hs) && (event.Some? ==> |event.value| >= size)
    requires hs[i].owner.None?
    ensures Emitted(st, st, hs, i, 0, event, size, heapOut)
  {
  }

  /** A handler of a module without a queue runs at once and counts as reached. */
  lemma EmitRun(st: State, hs: seq<Handler>, i: nat, event: Option<seq<byte>>, size: nat, heapOut: bool)
    requires i < |hs| && Inv(st, None) && Reachable(st, hs) && (event.Some? ==> |event.value| >= size)
    requires hs[i].owner.Some? && !hs[i].owner.value.hasQueue
    ensures Emitted(st, st.(runs := st.runs + [SignalRun(hs[i].owner.value.id, event)]), hs, i, 1, event, size, heapOut)
  {
    RunsFrame(st, st.runs + [SignalRun(hs[i].owner.value.id, event)], hs);
  }

  /** A handler of a module with a queue is sent a signal message, and counts as reached if it was queued. */
  lemma EmitQueued(st: State, hs: seq<Handler>, i: nat, event: Option<seq<byte>>, size: nat, heapOut: bool, e: (State, int, nat))
    requires i < |hs| && Inv(st, None) && Reachable(st, hs) && (event.Some? ==> |event.value| >= size)
    requires hs[i].owner.Some? && hs[i].owner.value.hasQueue
    requires e == Enqueue(st, MsgSignal, ToHandler(hs[i]), hs[i].owner.value, event, size, false, 0, heapOut)
    ensures Emitted(st, e.0, hs, i, if e.1 == 0 then 1 else 0, event, size, heapOut)
  {
    EnqueueInv(st, MsgSignal, ToHandler(hs[i]), hs[i].owner.value, event, size, false, 0, heapOut);
  }

  // ---- The subsystem in place ----

  /** The context slab, the modules' queues and the handler runs, as weave_core.c updates them. */
  class Weave {
    var slab: nat
    var ctxs: map<nat, Ctx>
    var next: nat
    var queues: map<nat, Queue>
    var runs: seq<Run>

    /** A slab of `size` contexts, none live, and the given queues, all empty. */
    constructor (size: nat, qs: map<nat, Queue>)
      requires forall q | q in qs :: qs[q].items == []
      ensures Current() == State(size, map[], 0, qs, []) && Inv(Current(), None)
    {
      slab, ctxs, next, queues, runs := size, map[], 0, qs, [];
    }

    function Current(): State
      reads this
    {
      State(slab, ctxs, next, queues, runs)
    }

    /** weave_context_put. */
    method ContextPut(id: Option<nat>) returns (freed: bool)
      requires id.Some? ==> id.value in ctxs
      modifies this
      ensures (Current(), freed) == Put(old(Current()), id)
    {
      if id.None? {
        return false;
      }
      var c := ctxs[id.value];
      if c.refcount == 1 {
        ctxs := ctxs - {id.value};
        return true;
      }
      ctxs := ctxs[id.value := c.(refcount := c.refcount - 1)];
      freed := false;
    }

    /** weave_queue_message, releasing every reference one at a time when the queue is full. */
    method QueueMsg(id: nat, m: Module) returns (ret: int)
      requires id in ctxs && Knows(Current(), m)
      modifies this
      ensures (Current(), ret) == QueueMessage(old(Current()), id, m)
    {
      if !m.hasQueue {
        return -EINVAL;
      }
      var q := queues[m.id];
      if |q.items| < q.capacity {
        queues := queues[m.id := q.(items := q.items + [id])];
        return 0;
      }
      var refs := ctxs[id].refcount;
      var n: nat := if refs > 0 then refs as nat else 0;
      ghost var s0 := Current();
      for i := 0 to n
        invariant n - i > 0 ==> id in ctxs && ctxs[id].refcount == n - i
        invariant ReleaseAll(Current(), id, n - i) == ReleaseAll(s0, id, n)
      {
        var _ := ContextPut(Some(id));
      }
      ret := -ENOMSG;
    }

    /** weave_queue_async_message up to the queueing; returns the result and the context's identifier. */
    method QueueAsync(kind: Kind, target: Target, m: Module, data: Option<seq<byte>>, size: nat,
                      reply: bool, replySize: nat, heapOut: bool) returns (ret: int, id: nat)
      requires Fresh(Current()) && m.hasQueue && Knows(Current(), m) && (data.Some? ==> |data.value| >= size)
      modifies this
      ensures (Current(), ret, id) == Enqueue(old(Current()), kind, target, m, data, size, reply, replySize, heapOut)
    {
      if |ctxs| >= slab {
        return -ENOMEM, 0;
      }
      id := next;
      var c := Ctx(kind, 1, if kind == MsgRequest then -ETIMEDOUT else 0, 0, None, None, 0, false, 0, m.id);
      ctxs := ctxs[id := c];
      next := next + 1;
      if HeapFails(kind, data, size, reply, replySize, heapOut) {
        ctxs := ctxs - {id};
        return -ENOMEM, id;
      }
      c := SetupSteps(c, target, data, size, reply, replySize);
      ctxs := ctxs[id := c];
      ret := QueueMsg(id, m);
    }

    /** The field-by-field setup of a fresh context, as weave_queue_async_message writes it. */
    static method SetupSteps(c0: Ctx, target: Target, data: Option<seq<byte>>, size: nat, reply: bool, replySize: nat)
      returns (c: Ctx)
      requires c0.refcount == 1 && (data.Some? ==> |data.value| >= size)
      ensures c == Setup(c0, target, data, size, reply, replySize)
    {
      c := c0.(request := if data.Some? && size > 0 then Some(data.value[..size]) else None, requestSize := size);
      if reply && c0.kind == MsgRequest {
        c := c.(reply := replySize > 0, replySize := replySize);
      }
      c := c.(target := Some(target));
      if c0.kind == MsgRequest {
        c := c.(refcount := c.refcount + 1);
      }
    }

    /** weave_process_message. */
    method ProcessMsg(m: Option<Module>, id: Option<nat>)
      modifies this
      ensures Current() == ProcessMessage(old(Current()), m, id)
    {
      if m.None? || id.None? || id.value !in ctxs {
        return;
      }
      var c := ctxs[id.value];
      match c.kind {
        case MsgRequest =>
          var result := -ENOTSUP;
          if c.target.Some? && c.target.value.ToMethod? && c.target.value.callee.handler.Some? {
            result := c.target.value.callee.handler.value(m.value.id, c.request, c.reply);
            runs := runs + [MethodRun(m.value.id, c.request, c.reply)];
          }
          ctxs := ctxs[id.value := c.(result := result, completion := Give(c.completion))];
          var _ := ContextPut(id);
        case MsgSignal =>
          if c.target.Some? && c.target.value.ToHandler? && c.target.value.handler.hasHandler {
            runs := runs + [SignalRun(m.value.id, c.request)];
          }
          var _ := ContextPut(id);
      }
    }

    /** weave_process_all_messages: take and process messages until the queue is empty. */
    method ProcessAllMessages(m: Option<Module>) returns (count: nat)
      requires m.Some? ==> Knows(Current(), m.value)
      modifies this
      ensures (Current(), count) == ProcessAll(old(Current()), m)
    {
      if m.None? || !m.value.hasQueue {
        return 0;
      }
      count := Receive(m.value, |queues[m.value.id].items|);
    }

    /** The module's thread taking and processing up to `n` messages of its queue, oldest first. */
    method Receive(t: Module, n: nat) returns (count: nat)
      requires t.id in queues
      modifies this
      ensures (Current(), count) == Serve(old(Current()), t, n)
    {
      ghost var goal := Serve(Current(), t, n);
      ServedStart(Current(), t, n);
      count := 0;
      while count < n && |queues[t.id].items| > 0
        invariant t.id in queues && count <= n
        invariant Served(goal, Current(), t, n - count, count)
        decreases n - count
      {
        ReceiveStep(goal, t, n - count, count);
        count := count + 1;
      }
      ServedDone(goal, Current(), t, n - count, count);
    }

    /** One turn of the module thread's loop, accounted against the whole serve. */
    method ReceiveStep(ghost goal: (State, nat), t: Module, ghost left: nat, ghost count: nat)
      requires t.id in queues && left > 0 && |queues[t.id].items| > 0
      requires Served(goal, Current(), t, left, count)
      modifies this
      ensures t.id in queues && Served(goal, Current(), t, left - 1, count + 1)
    {
      ghost var cur := Current();
      ReceiveOne(t);
      ServedStep(goal, cur, Current(), t, left, count);
    }

    /** k_msgq_get of the oldest message of the module's queue and weave_process_message on it. */
    method ReceiveOne(t: Module)
      requires t.id in queues && |queues[t.id].items| > 0
      modifies this
      ensures Current() == ProcessMessage(Pop(old(Current()), t.id), Some(t), Some(old(queues[t.id].items[0])))
    {
      var id := queues[t.id].items[0];
      queues := queues[t.id := queues[t.id].(items := queues[t.id].items[1..])];
      ProcessMsg(Some(t), Some(id));
    }

    /** The sender's wait for the completion and the release of its reference. */
    method WaitReply(id: nat, reply: bool, replySize: nat) returns (ret: int, copied: nat)
      requires id in ctxs
      modifies this
      ensures (Current(), ret, copied) == Wait(old(Current()), id, reply, replySize)
    {
      var c := ctxs[id];
      if c.completion == 0 {
        var _ := ContextPut(Some(id));
        return -ETIMEDOUT, 0;
      }
      ctxs := ctxs[id := c.(completion := c.completion - 1)];
      copied := if c.result == 0 && reply && c.replySize > 0 then Min(c.replySize, replySize) else 0;
      ret := c.result;
      var _ := ContextPut(Some(id));
    }

    /** weave_call_method, with `served` messages run by the receiver before the wait. */
    method Call(port: Option<Port>, request: Option<seq<byte>>, requestSize: nat,
                reply: bool, replySize: nat, heapOut: bool, served: nat) returns (ret: int, copied: nat)
      requires Inv(Current(), None) && Callable(port) && (request.Some? ==> |request.value| >= requestSize)
      requires port.Some? && port.value.target.Some? && port.value.target.value.owner.Some? ==>
                 Knows(Current(), port.value.target.value.owner.value)
      modifies this
      ensures (Current(), ret, copied) == CallMethod(old(Current()), port, request, requestSize, reply, replySize, heapOut, served)
    {
      if Rejected(port, request, requestSize, reply, replySize) {
        return -EINVAL, 0;
      }
      var p := port.value;
      var m := p.target.value;
      var target := m.owner.value;
      if !target.hasQueue {
        ret := m.handler.value(target.id, request, reply);
        runs := runs + [MethodRun(target.id, request, reply)];
        return ret, 0;
      }
      ghost var s0 := Current();
      var id;
      ret, id := QueueAsync(MsgRequest, ToMethod(m), target, request, p.requestSize, reply, p.replySize, heapOut);
      EnqueueInv(s0, MsgRequest, ToMethod(m), target, request, p.requestSize, reply, p.replySize, heapOut);
      if ret != 0 {
        return ret, 0;
      }
      ghost var s1 := Current();
      var _ := Receive(target, served);
      ServeInv(s1, target, served, Some(id));
      ret, copied := WaitReply(id, reply, replySize);
    }

    /** weave_emit_signal: every handler in wiring order, run at once or queued. */
    method Emit(signal: Option<Signal>, event: Option<seq<byte>>, heapOut: bool) returns (ret: int)
      requires Inv(Current(), None) && (signal.Some? ==> Reachable(Current(), signal.value.handlers))
      requires signal.Some? && event.Some? ==> |event.value| >= signal.value.eventSize
      modifies this
      ensures (Current(), ret) == EmitSignal(old(Current()), signal, event, heapOut)
    {
      if signal.None? {
        return -EINVAL;
      }
      var hs := signal.value.handlers;
      var size := signal.value.eventSize;
      ghost var s0 := Current();
      var sent := 0;
      for i := 0 to |hs|
        invariant Inv(Current(), None) && Reachable(Current(), hs)
        invariant EmitFrom(s0, hs, 0, event, size, heapOut).0 == EmitFrom(Current(), hs, i, event, size, heapOut).0
        invariant EmitFrom(s0, hs, 0, event, size, heapOut).1 == sent + EmitFrom(Current(), hs, i, event, size, heapOut).1
      {
        var one := EmitTo(hs, i, event, size, heapOut);
        sent := sent + one;
      }
      ret := 0;
    }

    /** One pass of weave_emit_signal's loop: handler `i` skipped, run at once, or sent a queued signal; 1 if it was reached. */
    method EmitTo(hs: seq<Handler>, i: nat, event: Option<seq<byte>>, size: nat, heapOut: bool) returns (sent: nat)
      requires i < |hs| && Inv(Current(), None) && Reachable(Current(), hs) && (event.Some? ==> |event.value| >= size)
      modifies this
      ensures Emitted(old(Current()), Current(), hs, i, sent, event, size, heapOut)
    {
      ghost var s0 := Current();
      var h := hs[i];
      if h.owner.None? {
        EmitSkip(s0, hs, i, event, size, heapOut);
        return 0;
      }
      if !h.owner.value.hasQueue {
        runs := runs + [SignalRun(h.owner.value.id, event)];
        EmitRun(s0, hs, i, event, size, heapOut);
        return 1;
      }
      var r, id := QueueAsync(MsgSignal, ToHandler(h), h.owner.value, event, size, false, 0, heapOut);
      EmitQueued(s0, hs, i, event, size, heapOut, (Current(), r, id));
      sent := if r == 0 then 1 else 0;
    }
  }
}

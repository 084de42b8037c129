// Start-up wiring of the weave messaging subsystem
// (weave/subsys/weave/weave_core.c, weave_wire_connections and weave_init):
// the method connections are walked in link order, each one whose port and
// method are both set checks that the two agree on the request and reply
// sizes and points the port at the method; the first disagreement stops
// the walk with -EINVAL, leaving the ports wired so far as they are. Only
// when every method connection passed are the signal connections walked,
// each appending its handler to its signal's handler list.
//
// The statically defined ports, methods, signals and handlers become
// sequences, and a connection's pointers become indices into them (None
// for NULL); a port's target is the index of its method.
module WeaveWiring {
  import opened Wrappers
  import opened Errno
  import opened Bytes
  import WM = WeaveMessaging

  /** struct weave_method_port: the sizes it promises and the method it is wired to. */
  datatype PortSlot = PortSlot(requestSize: nat, replySize: nat, target: Option<nat>)

  /** struct weave_method_connection. */
  datatype MethodConn = MethodConn(port: Option<nat>, callee: Option<nat>)

  /** struct weave_signal_connection. */
  datatype SignalConn = SignalConn(signal: Option<nat>, handler: Option<nat>)

  /** A method connection whose port and method are both set. */
  predicate Both(c: MethodConn) {
    c.port.Some? && c.callee.Some?
  }

  /** A signal connection whose signal and handler are both set. */
  predicate Linked(c: SignalConn) {
    c.signal.Some? && c.handler.Some?
  }

  /** The pointers of a method connection address defined ports and methods. */
  predicate MethodConnOk(nPorts: nat, nMethods: nat, c: MethodConn) {
    (c.port.Some? ==> c.port.value < nPorts) && (c.callee.Some? ==> c.callee.value < nMethods)
  }

  predicate MethodConnsOk(nPorts: nat, nMethods: nat, conns: seq<MethodConn>) {
    forall k | 0 <= k < |conns| :: MethodConnOk(nPorts, nMethods, conns[k])
  }

  /** The pointers of a signal connection address defined signals and handlers. */
  predicate SignalConnOk(nSignals: nat, nHandlers: nat, c: SignalConn) {
    (c.signal.Some? ==> c.signal.value < nSignals) && (c.handler.Some? ==> c.handler.value < nHandlers)
  }

  predicate SignalConnsOk(nSignals: nat, nHandlers: nat, conns: seq<SignalConn>) {
    forall k | 0 <= k < |conns| :: SignalConnOk(nSignals, nHandlers, conns[k])
  }

  /** The handler pointers alone address defined handlers. */
  predicate HandlerRefsOk(nHandlers: nat, conns: seq<SignalConn>) {
    forall k | 0 <= k < |conns| :: conns[k].handler.Some? ==> conns[k].handler.value < nHandlers
  }

  /** A connection weave_wire_connections refuses: both set, and the request or the reply sizes differ. */
  predicate Clash(ports: seq<PortSlot>, methods: seq<WM.Method>, c: MethodConn)
    requires MethodConnOk(|ports|, |methods|, c)
  {
    Both(c)
    && (ports[c.port.value].requestSize != methods[c.callee.value].requestSize
        || ports[c.port.value].replySize != methods[c.callee.value].replySize)
  }

  predicate NoClash(ports: seq<PortSlot>, methods: seq<WM.Method>, conns: seq<MethodConn>)
    requires MethodConnsOk(|ports|, |methods|, conns)
  {
    forall k | 0 <= k < |conns| :: !Clash(ports, methods, conns[k])
  }

  /** The method of the last connection, both set, that names port `p`; None when there is none. */
  function LastFor(conns: seq<MethodConn>, p: nat): (r: Option<nat>)
    decreases |conns|
  {
    if |conns| == 0 then None
    else
      var c := conns[|conns| - 1];
      if Both(c) && c.port.value == p then c.callee else LastFor(conns[..|conns| - 1], p)
  }

  /** A port pointed at `t` when there is a connection for it, else as it was. */
  function Rewired(slot: PortSlot, t: Option<nat>): (r: PortSlot)
    ensures r.requestSize == slot.requestSize && r.replySize == slot.replySize
  {
    if t.Some? then slot.(target := t) else slot
  }

  /** The handlers the connections, in order, append to signal `s`. */
  function HandlersFor(handlers: seq<WM.Handler>, conns: seq<SignalConn>, s: nat): (r: seq<WM.Handler>)
    requires HandlerRefsOk(|handlers|, conns)
    decreases |conns|
  {
    if |conns| == 0 then []
    else
      var c := conns[|conns| - 1];
      HandlersFor(handlers, conns[..|conns| - 1], s)
      + (if Linked(c) && c.signal.value == s then [handlers[c.handler.value]] else [])
  }

  /** WEAVE_METHOD_PORT_DEFINE leaves every port's target NULL. */
  predicate Unwired(ports: seq<PortSlot>) {
    forall p | 0 <= p < |ports| :: ports[p].target.None?
  }

  /** The struct weave_method_port a caller of weave_call_method passes, with its target method resolved. */
  function Resolve(slot: PortSlot, methods: seq<WM.Method>): (r: WM.Port)
    requires slot.target.Some? ==> slot.target.value < |methods|
    ensures r.requestSize == slot.requestSize && r.replySize == slot.replySize
    ensures r.target.Some? <==> slot.target.Some?
  {
    WM.Port(slot.requestSize, slot.replySize, if slot.target.Some? then Some(methods[slot.target.value]) else None)
  }

  // ---- Properties ----

  /**
   * LastFor finds a connection for `p` exactly when one exists, and the one
   * it finds is the last: no later connection names `p`.
   */
  lemma {:induction false} LastForMeans(conns: seq<MethodConn>, p: nat)
    ensures LastFor(conns, p).Some? <==> exists k | 0 <= k < |conns| :: Both(conns[k]) && conns[k].port == Some(p)
    ensures LastFor(conns, p).Some? ==>
      exists k | 0 <= k < |conns| :: conns[k] == MethodConn(Some(p), LastFor(conns, p))
        && forall j | k < j < |conns| :: !(Both(conns[j]) && conns[j].port == Some(p))
    decreases |conns|
  {
    if |conns| > 0 {
      var n := |conns| - 1;
      var init := conns[..n];
      LastForMeans(init, p);
      assert forall k | 0 <= k < n :: init[k] == conns[k];
      if Both(conns[n]) && conns[n].port.value == p {
        assert conns[n] == MethodConn(Some(p), LastFor(conns, p));
      } else if LastFor(init, p).Some? {
        var k :| 0 <= k < n && init[k] == MethodConn(Some(p), LastFor(init, p))
                 && forall j | k < j < n :: !(Both(init[j]) && init[j].port == Some(p));
        assert conns[k] == MethodConn(Some(p), LastFor(conns, p));
      }
    }
  }

  /**
   * When no connection clashes, every port a connection names is wired to
   * a method with the port's own request and reply sizes.
   */
  lemma WiredSizesMatch(ports: seq<PortSlot>, methods: seq<WM.Method>, conns: seq<MethodConn>, p: nat)
    requires MethodConnsOk(|ports|, |methods|, conns) && NoClash(ports, methods, conns) && p < |ports|
    ensures LastFor(conns, p).Some? ==>
      LastFor(conns, p).value < |methods|
      && methods[LastFor(conns, p).value].requestSize == ports[p].requestSize
      && methods[LastFor(conns, p).value].replySize == ports[p].replySize
  {
    LastForMeans(conns, p);
    if LastFor(conns, p).Some? {
      var k :| 0 <= k < |conns| && conns[k] == MethodConn(Some(p), LastFor(conns, p))
               && forall j | k < j < |conns| :: !(Both(conns[j]) && conns[j].port == Some(p));
      assert !Clash(ports, methods, conns[k]);
    }
  }

  /**
   * The handlers appended for a run of connections are those of its first
   * part followed by those of the rest: connection order is list order.
   */
  lemma {:induction false} HandlersForAppend(handlers: seq<WM.Handler>, a: seq<SignalConn>, b: seq<SignalConn>, s: nat)
    requires HandlerRefsOk(|handlers|, a) && HandlerRefsOk(|handlers|, b)
    ensures HandlerRefsOk(|handlers|, a + b)
    ensures HandlersFor(handlers, a + b, s) == HandlersFor(handlers, a, s) + HandlersFor(handlers, b, s)
    decreases |b|
  {
    assert forall k | 0 <= k < |a + b| :: (a + b)[k] == if k < |a| then a[k] else b[k - |a|];
    if |b| > 0 {
      var n := |b| - 1;
      var c := b[n];
      assert (a + b)[..|a + b| - 1] == a + b[..n];
      HandlersForAppend(handlers, a, b[..n], s);
      var tail := if Linked(c) && c.signal.value == s then [handlers[c.handler.value]] else [];
      calc {
        HandlersFor(handlers, a + b, s);
        HandlersFor(handlers, a + b[..n], s) + tail;
        HandlersFor(handlers, a, s) + HandlersFor(handlers, b[..n], s) + tail;
        HandlersFor(handlers, a, s) + (HandlersFor(handlers, b[..n], s) + tail);
      }
    } else {
      assert a + b == a;
    }
  }

  /** A handler is appended to signal `s` exactly when some connection links it to `s`. */
  lemma {:induction false} HandlersForMembers(handlers: seq<WM.Handler>, conns: seq<SignalConn>, s: nat, h: WM.Handler)
    requires HandlerRefsOk(|handlers|, conns)
    ensures h in HandlersFor(handlers, conns, s) <==>
      exists k | 0 <= k < |conns| :: Linked(conns[k]) && conns[k].signal == Some(s) && handlers[conns[k].handler.value] == h
    decreases |conns|
  {
    if |conns| > 0 {
      var n := |conns| - 1;
      var init := conns[..n];
      assert forall k | 0 <= k < n :: init[k] == conns[k];
      HandlersForMembers(handlers, init, s, h);
    }
  }

  /**
   * The point of the size check: once the ports start unwired and no
   * connection clashes, a call weave_call_method lets through on a wired
   * port carries a request and a reply buffer at least as large as its
   * method expects.
   */
  lemma ResolvedCallFits(ports: seq<PortSlot>, methods: seq<WM.Method>, conns: seq<MethodConn>, p: nat,
                         request: Option<seq<byte>>, requestSize: nat, reply: bool, replySize: nat)
    requires MethodConnsOk(|ports|, |methods|, conns) && NoClash(ports, methods, conns) && Unwired(ports)
    requires p < |ports|
    ensures var slot := Rewired(ports[p], LastFor(conns, p));
      (slot.target.Some? ==> slot.target.value < |methods|)
      && (slot.target.Some? && !WM.Rejected(Some(Resolve(slot, methods)), request, requestSize, reply, replySize) ==>
            requestSize >= methods[slot.target.value].requestSize
            && (reply ==> replySize >= methods[slot.target.value].replySize))
  {
    WiredSizesMatch(ports, methods, conns, p);
  }

  // ---- The wiring in place ----

  /** The ports and signals weave_wire_connections updates. */
  class Registry {
    var ports: seq<PortSlot>
    var signals: seq<WM.Signal>

    constructor (ps: seq<PortSlot>, ss: seq<WM.Signal>)
      ensures ports == ps && signals == ss
    {
      ports, signals := ps, ss;
    }

    /**
     * weave_wire_connections: 0 when no method connection clashes, with
     * every named port pointed at the method of its last connection and
     * every linked handler appended to its signal in connection order;
     * otherwise -EINVAL at the first clash, the ports wired up to it as
     * they are and no signal touched.
     */
    method WireConnections(methods: seq<WM.Method>, handlers: seq<WM.Handler>,
                           mconns: seq<MethodConn>, sconns: seq<SignalConn>) returns (ret: int)
      requires MethodConnsOk(|ports|, |methods|, mconns) && SignalConnsOk(|signals|, |handlers|, sconns)
      modifies this
      ensures ret == 0 || ret == -EINVAL
      ensures ret == 0 <==> NoClash(old(ports), methods, mconns)
      ensures |ports| == |old(ports)| && |signals| == |old(signals)|
      ensures ret == 0 ==> forall p | 0 <= p < |ports| :: ports[p] == Rewired(old(ports)[p], LastFor(mconns, p))
      ensures ret == -EINVAL ==>
        exists k | 0 <= k < |mconns| ::
          Clash(old(ports), methods, mconns[k]) && NoClash(old(ports), methods, mconns[..k])
          && forall p | 0 <= p < |ports| :: ports[p] == Rewired(old(ports)[p], LastFor(mconns[..k], p))
      ensures ret != 0 ==> signals == old(signals)
      ensures ret == 0 ==> forall s | 0 <= s < |signals| ::
        signals[s] == old(signals)[s].(handlers := old(signals)[s].handlers + HandlersFor(handlers, sconns, s))
    {
      var i := 0;
      while i < |mconns|
        invariant 0 <= i <= |mconns|
        invariant |ports| == |old(ports)| && signals == old(signals)
        invariant NoClash(old(ports), methods, mconns[..i])
        invariant forall p | 0 <= p < |ports| :: ports[p] == Rewired(old(ports)[p], LastFor(mconns[..i], p))
      {
        var c := mconns[i];
        assert mconns[..i + 1][..i] == mconns[..i] && mconns[..i + 1][i] == c;
        if c.port.Some? && c.callee.Some? {
          var p, m := c.port.value, c.callee.value;
          if ports[p].requestSize != methods[m].requestSize || ports[p].replySize != methods[m].replySize {
            assert Clash(old(ports), methods, mconns[i]);
            return -EINVAL;
          }
          ports := ports[p := ports[p].(target := Some(m))];
        }
        i := i + 1;
      }
      assert mconns[..i] == mconns;
      ghost var wired := ports;
      var j := 0;
      while j < |sconns|
        invariant 0 <= j <= |sconns|
        invariant ports == wired
        invariant |signals| == |old(signals)|
        invariant forall s | 0 <= s < |signals| ::
          signals[s] == old(signals)[s].(handlers := old(signals)[s].handlers + HandlersFor(handlers, sconns[..j], s))
      {
        var c := sconns[j];
        assert sconns[..j + 1][..j] == sconns[..j] && sconns[..j + 1][j] == c;
        if c.signal.Some? && c.handler.Some? {
          var s, h := c.signal.value, c.handler.value;
          signals := signals[s := signals[s].(handlers := signals[s].handlers + [handlers[h]])];
        }
        j := j + 1;
      }
      assert sconns[..j] == sconns;
      ret := 0;
    }

    /** weave_init: the wiring's result; logging the registered modules is left out. */
    method Init(methods: seq<WM.Method>, handlers: seq<WM.Handler>,
                mconns: seq<MethodConn>, sconns: seq<SignalConn>) returns (ret: int)
      requires MethodConnsOk(|ports|, |methods|, mconns) && SignalConnsOk(|signals|, |handlers|, sconns)
      modifies this
      ensures ret == 0 <==> NoClash(old(ports), methods, mconns)
      ensures |ports| == |old(ports)|
      ensures ret != 0 ==> ret == -EINVAL && signals == old(signals)
      ensures ret == 0 ==> forall p | 0 <= p < |ports| :: ports[p] == Rewired(old(ports)[p], LastFor(mconns, p))
    {
      ret := WireConnections(methods, handlers, mconns, sconns);
    }
  }
}

// Runtime connections of the flow engine (flow_runtime.c): a fixed pool of
// connection entries, each with an in-use flag, and the helpers that link a
// connection into its source's list and unlink it again. The pool is an
// array of slots; the connection node of slot i is PoolNode(i), which no
// static connection's node can equal. Locks and mutexes are not modelled:
// every operation runs to completion alone.
module FlowRuntime {
  import opened Errno
  import opened Wrappers
  import opened Flow

  /** struct flow_runtime_connection: the connection's source and sink, and the in-use flag. */
  datatype Slot = Slot(inUse: bool, source: FlowSource?, sink: Option<FlowSink>)

  /** An in-use slot that connects `source` to `sink`. */
  predicate Holds(s: Slot, source: FlowSource?, sink: Option<FlowSink>) {
    s.inUse && s.source == source && s.sink == sink
  }

  /** The number of in-use slots. */
  function InUseCount(slots: seq<Slot>): (n: nat)
    ensures n <= |slots|
  {
    if |slots| == 0 then 0 else (if slots[0].inUse then 1 else 0) + InUseCount(slots[1..])
  }

  /** The pool invariant: no two in-use slots connect the same pair. */
  predicate UniquePairs(slots: seq<Slot>) {
    forall i, j :: 0 <= i < j < |slots| && slots[i].inUse && slots[j].inUse ==>
      (slots[i].source, slots[i].sink) != (slots[j].source, slots[j].sink)
  }

  // ---- The source's connection list ----

  /**
   * The duplicate scan of flow_connection_add_internal: walking the list in
   * order, the first entry that is the same node gives -EBUSY, the first
   * that targets the same sink gives -EALREADY, and a clean list gives 0.
   */
  function AddScan(conns: seq<Conn>, c: Conn): (ret: int)
    ensures ret == 0 || ret == -EBUSY || ret == -EALREADY
    ensures ret == 0 <==> forall i :: 0 <= i < |conns| ==> conns[i].node != c.node && conns[i].sink != c.sink
    ensures ret == -EBUSY ==> exists i :: 0 <= i < |conns| && conns[i].node == c.node
    ensures ret == -EALREADY ==> exists i :: 0 <= i < |conns| && conns[i].sink == c.sink
  {
    if |conns| == 0 then 0
    else if conns[0].node == c.node then -EBUSY
    else if conns[0].sink == c.sink then -EALREADY
    else
      var r := AddScan(conns[1..], c);
      assert forall i :: 1 <= i < |conns| ==> conns[i] == conns[1..][i - 1];
      r
  }

  /** The position of the first connection whose node is `node`. */
  function NodeIndex(conns: seq<Conn>, node: Node): (r: Option<nat>)
    ensures r.None? <==> forall i :: 0 <= i < |conns| ==> conns[i].node != node
    ensures r.Some? ==> (r.value < |conns| && conns[r.value].node == node
      && forall i :: 0 <= i < r.value ==> conns[i].node != node)
  {
    if |conns| == 0 then None
    else if conns[0].node == node then Some(0)
    else
      match NodeIndex(conns[1..], node)
      case None => None
      case Some(k) => Some(k + 1)
  }

  /** sys_slist_find_and_remove on a node: the list without its first occurrence, or None. */
  function RemoveNode(conns: seq<Conn>, node: Node): (r: Option<seq<Conn>>)
    ensures r.None? <==> forall i :: 0 <= i < |conns| ==> conns[i].node != node
    ensures r.Some? ==> |r.value| == |conns| - 1
  {
    match NodeIndex(conns, node)
    case None => None
    case Some(k) => Some(conns[..k] + conns[k + 1..])
  }

  /** flow_connection_add_internal's effect on the list, with its result. */
  function AddInternal(conns: seq<Conn>, c: Conn): (r: (int, seq<Conn>))
  {
    if c.sink.None? then (-EINVAL, conns)
    else
      var ret := AddScan(conns, c);
      if ret == 0 then (0, conns + [c]) else (ret, conns)
  }

  /** flow_connection_remove_internal's effect on the list, with its result. */
  function RemoveInternal(conns: seq<Conn>, node: Node): (r: (int, seq<Conn>))
  {
    match RemoveNode(conns, node)
    case None => (-ENOENT, conns)
    case Some(rest) => (0, rest)
  }

  // ---- The pool ----

  /** The first in-use slot holding (source, sink). */
  function FindPair(slots: seq<Slot>, source: FlowSource?, sink: Option<FlowSink>): (r: Option<nat>)
    ensures r.None? <==> forall i :: 0 <= i < |slots| ==> !Holds(slots[i], source, sink)
    ensures r.Some? ==> (r.value < |slots| && Holds(slots[r.value], source, sink)
      && forall i :: 0 <= i < r.value ==> !Holds(slots[i], source, sink))
  {
    if |slots| == 0 then None
    else if Holds(slots[0], source, sink) then Some(0)
    else
      match FindPair(slots[1..], source, sink)
      case None => None
      case Some(k) => Some(k + 1)
  }

  /** The first slot that is not in use. */
  function FirstFree(slots: seq<Slot>): (r: Option<nat>)
    ensures r.None? <==> forall i :: 0 <= i < |slots| ==> slots[i].inUse
    ensures r.Some? ==> (r.value < |slots| && !slots[r.value].inUse
      && forall i :: 0 <= i < r.value ==> slots[i].inUse)
  {
    if |slots| == 0 then None
    else if !slots[0].inUse then Some(0)
    else
      match FirstFree(slots[1..])
      case None => None
      case Some(k) => Some(k + 1)
  }

  /**
   * flow_runtime_connect: -EINVAL for a missing source or sink, -EALREADY if
   * an in-use slot already holds the pair, -ENOMEM with every slot in use;
   * otherwise the first free slot is claimed and its connection added to the
   * source's list, and the slot is released again when that add fails (its
   * source and sink stay written, as in the C entry).
   */
  function Connect(slots: seq<Slot>, conns: seq<Conn>, source: FlowSource?, sink: Option<FlowSink>)
    : (r: (int, seq<Slot>, seq<Conn>))
    ensures |r.1| == |slots|
  {
    if source == null || sink.None? then (-EINVAL, slots, conns)
    else if FindPair(slots, source, sink).Some? then (-EALREADY, slots, conns)
    else
      match FirstFree(slots)
      case None => (-ENOMEM, slots, conns)
      case Some(i) =>
        var claimed := slots[i := Slot(true, source, sink)];
        var (ret, conns') := AddInternal(conns, Conn(PoolNode(i), sink));
        if ret < 0 then (ret, claimed[i := claimed[i].(inUse := false)], conns)
        else (0, claimed, conns')
  }

  /**
   * flow_runtime_disconnect: -EINVAL for a missing source or sink, -ENOENT
   * if no in-use slot holds the pair; otherwise the slot's node is unlinked
   * from the source's list, and the slot is freed when that succeeds.
   */
  function Disconnect(slots: seq<Slot>, conns: seq<Conn>, source: FlowSource?, sink: Option<FlowSink>)
    : (r: (int, seq<Slot>, seq<Conn>))
    ensures |r.1| == |slots|
  {
    if source == null || sink.None? then (-EINVAL, slots, conns)
    else
      match FindPair(slots, source, sink)
      case None => (-ENOENT, slots, conns)
      case Some(i) =>
        var (ret, conns') := RemoveInternal(conns, PoolNode(i));
        if ret == 0 then (0, slots[i := slots[i].(inUse := false)], conns') else (ret, slots, conns)
  }

  // ---- Properties ----

  lemma {:induction false} InUseCountUpdate(slots: seq<Slot>, i: nat, s: Slot)
    requires i < |slots|
    ensures InUseCount(slots[i := s]) == InUseCount(slots) - (if slots[i].inUse then 1 else 0) + (if s.inUse then 1 else 0)
  {
    if i > 0 {
      assert slots[i := s][1..] == slots[1..][i - 1 := s];
      InUseCountUpdate(slots[1..], i - 1, s);
    } else {
      assert slots[i := s][1..] == slots[1..];
    }
  }

  /** The duplicate scan finds the same node before it finds the same sink exactly when the node comes first. */
  lemma {:induction false} AddScanOrder(conns: seq<Conn>, c: Conn, k: nat)
    requires k < |conns| && (conns[k].node == c.node || conns[k].sink == c.sink)
    requires forall i :: 0 <= i < k ==> conns[i].node != c.node && conns[i].sink != c.sink
    ensures AddScan(conns, c) == (if conns[k].node == c.node then -EBUSY else -EALREADY)
  {
    if k > 0 {
      assert forall i :: 0 <= i < k - 1 ==> conns[1..][i] == conns[i + 1];
      AddScanOrder(conns[1..], c, k - 1);
    }
  }

  /** Adding a connection and removing its node again restores the source's list. */
  lemma AddThenRemove(conns: seq<Conn>, c: Conn)
    requires AddInternal(conns, c).0 == 0
    ensures RemoveInternal(AddInternal(conns, c).1, c.node) == (0, conns)
  {
    var l := conns + [c];
    assert AddScan(conns, c) == 0;
    assert forall j :: 0 <= j < |conns| ==> l[j].node != c.node;
    NodeIndexFirst(l, c.node, |conns|);
    assert l[..|conns|] + l[|conns| + 1..] == conns;
  }

  /**
   * The error results of flow_runtime_connect, each of which leaves the
   * pool and the list as they were.
   */
  lemma ConnectErrors(slots: seq<Slot>, conns: seq<Conn>, source: FlowSource?, sink: Option<FlowSink>)
    ensures var r := Connect(slots, conns, source, sink);
      var args := source != null && sink.Some?;
      var dup := exists i :: 0 <= i < |slots| && Holds(slots[i], source, sink);
      var full := forall i :: 0 <= i < |slots| ==> slots[i].inUse;
      (r.0 == -EINVAL <==> !args)
      && (r.0 == -EALREADY && r.1 == slots && r.2 == conns <== args && dup)
      && (r.0 == -ENOMEM <==> args && !dup && full)
      && (args && !dup && full ==> r.1 == slots && r.2 == conns)
  {
    var r := Connect(slots, conns, source, sink);
    if source != null && sink.Some? && FindPair(slots, source, sink).None? && FirstFree(slots).Some? {
      var i := FirstFree(slots).value;
      var ret := AddInternal(conns, Conn(PoolNode(i), sink)).0;
      assert ret == 0 || ret == -EBUSY || ret == -EALREADY;
    }
  }

  /**
   * A successful connect claims exactly one more slot, the first free one,
   * and appends its connection to the source's list; a connect whose list
   * add fails leaves the number of in-use slots and the list as they were.
   */
  lemma ConnectClaims(slots: seq<Slot>, conns: seq<Conn>, source: FlowSource?, sink: Option<FlowSink>)
    ensures var r := Connect(slots, conns, source, sink);
      (r.0 == 0 ==> (FirstFree(slots).Some?
        && var i := FirstFree(slots).value;
           r.1 == slots[i := Slot(true, source, sink)] && r.2 == conns + [Conn(PoolNode(i), sink)]
           && InUseCount(r.1) == InUseCount(slots) + 1))
      && (r.0 != 0 ==> (InUseCount(r.1) == InUseCount(slots) && r.2 == conns
           && forall j :: 0 <= j < |slots| ==> r.1[j].inUse == slots[j].inUse))
  {
    if source != null && sink.Some? && FindPair(slots, source, sink).None? && FirstFree(slots).Some? {
      var r := Connect(slots, conns, source, sink);
      var i := FirstFree(slots).value;
      var claimed := slots[i := Slot(true, source, sink)];
      var add := AddInternal(conns, Conn(PoolNode(i), sink));
      InUseCountUpdate(slots, i, Slot(true, source, sink));
      if add.0 < 0 {
        var back := claimed[i := claimed[i].(inUse := false)];
        assert r == (add.0, back, conns);
        InUseCountUpdate(claimed, i, claimed[i].(inUse := false));
      } else {
        assert r == (0, claimed, conns + [Conn(PoolNode(i), sink)]);
      }
    }
  }

  /** flow_runtime_connect keeps at most one in-use slot per (source, sink). */
  lemma ConnectKeepsUnique(slots: seq<Slot>, conns: seq<Conn>, source: FlowSource?, sink: Option<FlowSink>)
    requires UniquePairs(slots)
    ensures UniquePairs(Connect(slots, conns, source, sink).1)
  {
    var r := Connect(slots, conns, source, sink);
    if source != null && sink.Some? && FindPair(slots, source, sink).None? && FirstFree(slots).Some? {
      var i := FirstFree(slots).value;
      forall a, b | 0 <= a < b < |r.1| && r.1[a].inUse && r.1[b].inUse
        ensures (r.1[a].source, r.1[a].sink) != (r.1[b].source, r.1[b].sink)
      {
        if a == i {
          assert !Holds(slots[b], source, sink);
        } else if b == i {
          assert !Holds(slots[a], source, sink);
        }
      }
    }
  }

  /**
   * flow_runtime_disconnect: -ENOENT exactly when no in-use slot holds the
   * pair; a success frees exactly that slot and unlinks its node.
   */
  lemma DisconnectFrees(slots: seq<Slot>, conns: seq<Conn>, source: FlowSource?, sink: Option<FlowSink>)
    requires source != null && sink.Some?
    ensures var r := Disconnect(slots, conns, source, sink);
      (r.0 == -ENOENT <==> (forall i :: 0 <= i < |slots| ==> !Holds(slots[i], source, sink))
                           || (FindPair(slots, source, sink).Some?
                               && forall k :: 0 <= k < |conns| ==> conns[k].node != PoolNode(FindPair(slots, source, sink).value)))
      && (r.0 != 0 ==> r.1 == slots && r.2 == conns)
      && (r.0 == 0 ==> (FindPair(slots, source, sink).Some?
          && var i := FindPair(slots, source, sink).value;
             r.1 == slots[i := slots[i].(inUse := false)] && InUseCount(r.1) == InUseCount(slots) - 1
             && RemoveNode(conns, PoolNode(i)) == Some(r.2)))
  {
    match FindPair(slots, source, sink)
    case None =>
    case Some(i) =>
      InUseCountUpdate(slots, i, slots[i].(inUse := false));
  }

  /**
   * Connecting a new pair and disconnecting it again gives back the source's
   * list and every slot's in-use flag.
   */
  lemma ConnectThenDisconnect(slots: seq<Slot>, conns: seq<Conn>, source: FlowSource?, sink: Option<FlowSink>)
    requires Connect(slots, conns, source, sink).0 == 0
    ensures var c := Connect(slots, conns, source, sink);
      var d := Disconnect(c.1, c.2, source, sink);
      d.0 == 0 && d.2 == conns && |d.1| == |slots| && forall j :: 0 <= j < |slots| ==> d.1[j].inUse == slots[j].inUse
  {
    var i := FirstFree(slots).value;
    var c := Connect(slots, conns, source, sink);
    assert c.1 == slots[i := Slot(true, source, sink)];
    assert c.2 == conns + [Conn(PoolNode(i), sink)];
    assert FindPair(c.1, source, sink) == Some(i) by {
      assert Holds(c.1[i], source, sink);
      assert forall j :: 0 <= j < i ==> !Holds(c.1[j], source, sink) by {
        assert forall j :: 0 <= j < |slots| ==> !Holds(slots[j], source, sink);
      }
      FindPairFirst(c.1, source, sink, i);
    }
    AddThenRemove(conns, Conn(PoolNode(i), sink));
  }

  /**
   * Static connections never make a runtime connect busy: the pool's node
   * is never one of them, so beside a list of static connections to other
   * sinks the first free slot is claimed and linked.
   */
  lemma ConnectBesideStatic(slots: seq<Slot>, conns: seq<Conn>, source: FlowSource?, sink: Option<FlowSink>)
    requires source != null && sink.Some?
    requires forall k :: 0 <= k < |conns| ==> conns[k].node.StaticNode? && conns[k].sink != sink
    requires FindPair(slots, source, sink).None? && FirstFree(slots).Some?
    ensures Connect(slots, conns, source, sink).0 == 0
    ensures Connect(slots, conns, source, sink).2 == conns + [Conn(PoolNode(FirstFree(slots).value), sink)]
  {
    var i := FirstFree(slots).value;
    assert AddScan(conns, Conn(PoolNode(i), sink)) == 0;
  }

  /**
   * A source wired at boot to `s1` by static entry 0, then connected at run
   * time to another sink `s2` while pool slot 0 is free: the connect succeeds
   * with slot 0, after the static connection.
   */
  lemma StaticThenConnect(slots: seq<Slot>, source: FlowSource, s1: FlowSink, s2: FlowSink)
    requires s1 != s2 && |slots| > 0 && !slots[0].inUse
    requires forall j :: 0 <= j < |slots| ==> !Holds(slots[j], source, Some(s2))
    ensures var boot := StaticConnsFor([StaticConn(Some(0), 0, Some(s1))], 0);
      boot == [Conn(StaticNode(0), Some(s1))]
      && Connect(slots, boot, source, Some(s2)) ==
        (0, slots[0 := Slot(true, source, Some(s2))], boot + [Conn(PoolNode(0), Some(s2))])
  {
    var table := [StaticConn(Some(0), 0, Some(s1))];
    assert table[..0] == [];
    var boot := StaticConnsFor(table, 0);
    FirstFreeFirst(slots, 0);
    ConnectBesideStatic(slots, boot, source, Some(s2));
  }

  lemma FindPairFirst(slots: seq<Slot>, source: FlowSource?, sink: Option<FlowSink>, i: nat)
    requires i < |slots| && Holds(slots[i], source, sink)
    requires forall j :: 0 <= j < i ==> !Holds(slots[j], source, sink)
    ensures FindPair(slots, source, sink) == Some(i)
  {
  }

  lemma FirstFreeFirst(slots: seq<Slot>, i: nat)
    requires i < |slots| && !slots[i].inUse && forall j :: 0 <= j < i ==> slots[j].inUse
    ensures FirstFree(slots) == Some(i)
  {
  }

  lemma NodeIndexFirst(conns: seq<Conn>, node: Node, i: nat)
    requires i < |conns| && conns[i].node == node && forall j :: 0 <= j < i ==> conns[j].node != node
    ensures NodeIndex(conns, node) == Some(i)
  {
  }

  // ---- The pool in place ----

  /** The static runtime_pool. */
  class RuntimePool {
    const slots: array<Slot>

    constructor (size: nat)
      ensures slots.Length == size && fresh(slots)
      ensures forall i :: 0 <= i < size ==> slots[i] == Slot(false, null, None)
    {
      slots := new Slot[size](_ => Slot(false, null, None));
    }

    /** flow_connection_add_internal on one of this pool's connections, whose source is always set. */
    static method AddInternalTo(src: FlowSource, c: Conn) returns (ret: int)
      modifies src`connections
      ensures (ret, src.connections) == AddInternal(old(src.connections), c)
    {
      if c.sink.None? {
        return -EINVAL;
      }
      var conns := src.connections;
      var i := 0;
      while i < |conns|
        invariant 0 <= i <= |conns|
        invariant forall j :: 0 <= j < i ==> conns[j].node != c.node && conns[j].sink != c.sink
      {
        if conns[i].node == c.node {
          AddScanOrder(conns, c, i);
          return -EBUSY;
        }
        if conns[i].sink == c.sink {
          AddScanOrder(conns, c, i);
          return -EALREADY;
        }
        i := i + 1;
      }
      src.connections := conns + [c];
      return 0;
    }

    /** flow_connection_remove_internal. */
    static method RemoveInternalFrom(src: FlowSource, node: Node) returns (ret: int)
      modifies src`connections
      ensures (ret, src.connections) == RemoveInternal(old(src.connections), node)
    {
      var conns := src.connections;
      var i := 0;
      while i < |conns|
        invariant 0 <= i <= |conns|
        invariant forall j :: 0 <= j < i ==> conns[j].node != node
      {
        if conns[i].node == node {
          NodeIndexFirst(conns, node, i);
          src.connections := conns[..i] + conns[i + 1..];
          return 0;
        }
        i := i + 1;
      }
      return -ENOENT;
    }

    method FindPairIn(source: FlowSource?, sink: Option<FlowSink>) returns (r: Option<nat>)
      ensures r == FindPair(slots[..], source, sink)
    {
      var i := 0;
      while i < slots.Length
        invariant 0 <= i <= slots.Length
        invariant forall j :: 0 <= j < i ==> !Holds(slots[j], source, sink)
      {
        if Holds(slots[i], source, sink) {
          FindPairFirst(slots[..], source, sink, i);
          return Some(i);
        }
        i := i + 1;
      }
      return None;
    }

    method RuntimeConnect(source: FlowSource?, sink: Option<FlowSink>) returns (ret: int)
      modifies slots, source
      ensures source != null ==> source.sendCount == old(source.sendCount) && source.deliveryCount == old(source.deliveryCount)
      ensures source == null ==> ret == -EINVAL && slots[..] == old(slots[..])
      ensures source != null ==>
        (ret, slots[..], source.connections) == Connect(old(slots[..]), old(source.connections), source, sink)
    {
      if source == null || sink.None? {
        return -EINVAL;
      }
      var dup := FindPairIn(source, sink);
      if dup.Some? {
        return -EALREADY;
      }
      var i := 0;
      while i < slots.Length && slots[i].inUse
        invariant 0 <= i <= slots.Length
        invariant forall j :: 0 <= j < i ==> slots[j].inUse
      {
        i := i + 1;
      }
      if i == slots.Length {
        return -ENOMEM;
      }
      FirstFreeFirst(slots[..], i);
      slots[i] := Slot(true, source, sink);
      ret := AddInternalTo(source, Conn(PoolNode(i), sink));
      if ret < 0 {
        slots[i] := slots[i].(inUse := false);
      }
    }

    method RuntimeDisconnect(source: FlowSource?, sink: Option<FlowSink>) returns (ret: int)
      modifies slots, source
      ensures source != null ==> source.sendCount == old(source.sendCount) && source.deliveryCount == old(source.deliveryCount)
      ensures source == null ==> ret == -EINVAL && slots[..] == old(slots[..])
      ensures source != null ==>
        (ret, slots[..], source.connections) == Disconnect(old(slots[..]), old(source.connections), source, sink)
    {
      if source == null || sink.None? {
        return -EINVAL;
      }
      var found := FindPairIn(source, sink);
      if found.None? {
        return -ENOENT;
      }
      var i := found.value;
      ret := RemoveInternalFrom(source, PoolNode(i));
      if ret == 0 {
        slots[i] := slots[i].(inUse := false);
      }
    }
  }
}
